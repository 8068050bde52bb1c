/** One browser tab: requests that hit 401 share one refresh, and the server rotates the session step by step. */
module RefreshClient {
  import opened Common
  import opened SessionRotation

  // ---------- the tab ----------

  /** Where a call of apiFetch stands; a refreshable one is not on a path that must never refresh. */
  datatype Phase = Requested | AwaitingRefresh | Finished
  datatype Fetch = Fetch(refreshable: bool, retried: bool, sent: nat, phase: Phase)

  /** The shared refresh: sent, its row read by the server, answered, and delivered to the tab. */
  datatype Flight =
    | Sent(token: Token)
    | RowRead(token: Token)
    | Answered(issued: Option<Token>)
    | Delivered(ok: bool)

  /** The refresh cookie, the shared promise when there is one, and the calls in progress. */
  datatype Tab = Tab(cookie: Token, flight: Option<Flight>, fetches: map<int, Fetch>)

  function Started(tab: Tab, id: int, refreshable: bool): Tab {
    tab.(fetches := tab.fetches[id := Fetch(refreshable, false, 1, Requested)])
  }

  predicate MustRefresh(fetch: Fetch, unauthorized: bool) {
    unauthorized && fetch.refreshable && !fetch.retried
  }

  function Responded(tab: Tab, id: int, unauthorized: bool): Tab
    requires id in tab.fetches
  {
    var fetch := tab.fetches[id];
    if MustRefresh(fetch, unauthorized) then
      tab.(fetches := tab.fetches[id := fetch.(phase := AwaitingRefresh)],
           flight := if tab.flight.None? then Some(Sent(tab.cookie)) else tab.flight)
    else
      tab.(fetches := tab.fetches[id := fetch.(phase := Finished)])
  }

  /** The browser stores the cookie of a successful answer before any script sees it. */
  function Arrived(tab: Tab, issued: Option<Token>): Tab {
    Tab(if issued.Some? then issued.value else tab.cookie, Some(Delivered(issued.Some?)), tab.fetches)
  }

  function Resumed(fetch: Fetch, ok: bool): Fetch {
    if fetch.phase != AwaitingRefresh then fetch
    else if ok then fetch.(retried := true, sent := fetch.sent + 1, phase := Requested)
    else fetch.(phase := Finished)
  }

  /** The promise settles: it is cleared, and everyone waiting on it resumes. */
  function Settled(tab: Tab, ok: bool): Tab {
    Tab(tab.cookie, None, map id | id in tab.fetches :: Resumed(tab.fetches[id], ok))
  }

  class ApiClient {
    var cookie: Token
    var refreshPromise: Option<Flight>
    var fetches: map<int, Fetch>

    constructor (cookie: Token)
      ensures View() == Tab(cookie, None, map[])
    {
      this.cookie := cookie;
      refreshPromise := None;
      fetches := map[];
    }

    function View(): Tab
      reads this
    {
      Tab(cookie, refreshPromise, fetches)
    }

    method ApiFetch(id: int, refreshable: bool)
      modifies this
      ensures View() == Started(old(View()), id, refreshable)
    {
      fetches := fetches[id := Fetch(refreshable, false, 1, Requested)];
    }

    method RefreshAccessToken()
      modifies this`refreshPromise
      ensures refreshPromise == if old(refreshPromise).None? then Some(Sent(cookie)) else old(refreshPromise)
    {
      if refreshPromise.None? {
        refreshPromise := Some(Sent(cookie));
      }
    }

    method OnResponse(id: int, unauthorized: bool)
      requires id in fetches
      modifies this
      ensures View() == Responded(old(View()), id, unauthorized)
    {
      var fetch := fetches[id];
      if unauthorized && fetch.refreshable && !fetch.retried {
        fetches := fetches[id := fetch.(phase := AwaitingRefresh)];
        RefreshAccessToken();
      } else {
        fetches := fetches[id := fetch.(phase := Finished)];
      }
    }

    method OnRefreshAnswer(issued: Option<Token>)
      modifies this
      ensures View() == Arrived(old(View()), issued)
    {
      if issued.Some? {
        cookie := issued.value;
      }
      refreshPromise := Some(Delivered(issued.Some?));
    }

    method OnRefreshSettled(ok: bool)
      modifies this
      ensures View() == Settled(old(View()), ok)
    {
      refreshPromise := None;
      fetches := map id | id in fetches :: Resumed(fetches[id], ok);
    }
  }

  // ---------- tab and server together ----------

  /** `chain` lists the tokens of this login in the order they were issued; `replayed` records whether a refresh ever
      presented a revoked one. */
  datatype World = World(table: Table, tab: Tab, chain: seq<Token>, replayed: bool)

  datatype Event =
    | Start(id: int, refreshable: bool)
    | Respond(id: int, unauthorized: bool)
    | ServerRead(now: int)
    | ServerCommit(payload: Payload, next: Token, expiresAt: int)
    | Deliver
    | Settle
    | Elsewhere(table: Table)

  /** Responses are reliable, tokens valid and unexpired, new tokens new; other logins never touch this chain. */
  predicate Enabled(w: World, e: Event) {
    match e
    case Start(id, _) => id !in w.tab.fetches
    case Respond(id, _) => id in w.tab.fetches && w.tab.fetches[id].phase == Requested
    case ServerRead(now) =>
      && w.tab.flight.Some? && w.tab.flight.value.Sent?
      && (w.tab.flight.value.token in w.table ==> now <= w.table[w.tab.flight.value.token].expiresAt)
    case ServerCommit(payload, next, _) =>
      w.tab.flight.Some? && w.tab.flight.value.RowRead? && payload.Subject? && next !in w.table
    case Deliver => w.tab.flight.Some? && w.tab.flight.value.Answered?
    case Settle => w.tab.flight.Some? && w.tab.flight.value.Delivered?
    case Elsewhere(table) =>
      forall token :: token in w.chain && token in w.table ==> token in table && table[token] == w.table[token]
  }

  function Apply(w: World, e: Event): World
    requires Enabled(w, e)
  {
    match e
    case Start(id, refreshable) => w.(tab := Started(w.tab, id, refreshable))
    case Respond(id, unauthorized) => w.(tab := Responded(w.tab, id, unauthorized))
    case ServerRead(now) =>
      var token := w.tab.flight.value.token;
      w.(tab := w.tab.(flight := Some(if Accepts(w.table, token, now) then RowRead(token) else Answered(None))),
         replayed := w.replayed || (token in w.table && w.table[token].revoked))
    case ServerCommit(payload, next, expiresAt) =>
      w.(table := Committed(w.table, w.tab.flight.value.token, payload, next, expiresAt),
         tab := w.tab.(flight := Some(Answered(Issued(payload, next)))),
         chain := w.chain + [next])
    case Deliver => w.(tab := Arrived(w.tab, w.tab.flight.value.issued))
    case Settle => w.(tab := Settled(w.tab, w.tab.flight.value.ok))
    case Elsewhere(table) => w.(table := table)
  }

  /** Just after a login. */
  predicate Initial(w: World) {
    && |w.chain| == 1 && w.chain[0] in w.table && !w.table[w.chain[0]].revoked
    && w.tab == Tab(w.chain[0], None, map[]) && !w.replayed
  }

  ghost predicate Run(worlds: seq<World>, events: seq<Event>) {
    && |worlds| == |events| + 1 && Initial(worlds[0])
    && forall i :: 0 <= i < |events| ==> Enabled(worlds[i], events[i]) && worlds[i + 1] == Apply(worlds[i], events[i])
  }

  // ---------- the invariant ----------

  function Last(w: World): Token
    requires |w.chain| >= 1
  {
    w.chain[|w.chain| - 1]
  }

  /** Only the newest token of the chain is live. */
  ghost predicate ChainLive(table: Table, chain: seq<Token>) {
    && |chain| >= 1
    && (forall i :: 0 <= i < |chain| ==> chain[i] in table)
    && (forall i :: 0 <= i < |chain| ==> (table[chain[i]].revoked <==> i < |chain| - 1))
  }

  /** What the tab holds at each stage of a refresh. */
  predicate FlightFits(w: World)
    requires |w.chain| >= 1
  {
    match w.tab.flight
    case None => w.tab.cookie == Last(w)
    case Some(Sent(token)) => w.tab.cookie == token == Last(w)
    case Some(RowRead(token)) => w.tab.cookie == token == Last(w)
    case Some(Answered(issued)) => issued == Some(Last(w))
    case Some(Delivered(ok)) => ok && w.tab.cookie == Last(w)
  }

  predicate FetchFits(fetch: Fetch, refreshing: bool) {
    && fetch.sent == (if fetch.retried then 2 else 1)
    && (fetch.phase == AwaitingRefresh ==> !fetch.retried && refreshing)
  }

  ghost predicate Invariant(w: World) {
    && ChainLive(w.table, w.chain) && FlightFits(w) && !w.replayed
    && forall id :: id in w.tab.fetches ==> FetchFits(w.tab.fetches[id], w.tab.flight.Some?)
  }

  lemma {:induction false} CommitKeepsChain(table: Table, chain: seq<Token>, user: User, next: Token, expiresAt: int)
    requires ChainLive(table, chain) && next !in table
    ensures ChainLive(Committed(table, chain[|chain| - 1], Subject(user), next, expiresAt), chain + [next])
  {
    var last := chain[|chain| - 1];
    var after := Committed(table, last, Subject(user), next, expiresAt);
    forall i | 0 <= i < |chain| ensures chain[i] in after && after[chain[i]].revoked {
      if chain[i] != last {
        assert after[chain[i]] == table[chain[i]];
      }
    }
  }

  lemma {:induction false} StepKeepsInvariant(w: World, e: Event)
    requires Invariant(w) && Enabled(w, e)
    ensures Invariant(Apply(w, e))
  {
    match e {
      case ServerCommit(payload, next, expiresAt) =>
        CommitKeepsChain(w.table, w.chain, payload.user, next, expiresAt);
      case _ =>
    }
  }

  lemma {:induction false} RunKeepsInvariant(worlds: seq<World>, events: seq<Event>, i: nat)
    requires Run(worlds, events) && i < |worlds|
    ensures Invariant(worlds[i])
  {
    if i == 0 {
    } else {
      RunKeepsInvariant(worlds, events, i - 1);
      StepKeepsInvariant(worlds[i - 1], events[i - 1]);
    }
  }

  function LiveTokens(w: World): set<Token> {
    set token | token in w.chain && token in w.table && !w.table[token].revoked
  }

  /** In every reachable state the chain has exactly one live session, and whenever no refresh is in flight the cookie
      holds it; no refresh ever presented a revoked token, so none was refused; and no call of apiFetch sends its
      request more than twice. */
  lemma {:induction false} SingleFlightSafe(worlds: seq<World>, events: seq<Event>, i: nat)
    requires Run(worlds, events) && i < |worlds|
    ensures var w := worlds[i];
            && |LiveTokens(w)| == 1
            && (w.tab.flight.None? ==> LiveTokens(w) == {w.tab.cookie})
            && !w.replayed && w.tab.flight != Some(Answered(None)) && w.tab.flight != Some(Delivered(false))
            && (forall id :: id in w.tab.fetches ==> w.tab.fetches[id].sent <= 2)
            && (forall id :: id in w.tab.fetches && w.tab.fetches[id].phase == AwaitingRefresh ==> w.tab.flight.Some?)
  {
    RunKeepsInvariant(worlds, events, i);
    var w := worlds[i];
    assert Last(w) == w.chain[|w.chain| - 1];
    assert LiveTokens(w) == {Last(w)};
  }

  // ---------- what becomes of a call ----------

  /** A call is sent once and leaves everything else as it is. */
  lemma {:induction false} CallStarts(tab: Tab, id: int, refreshable: bool)
    ensures var after := Started(tab, id, refreshable);
            && id in after.fetches && after.fetches[id].sent == 1 && !after.fetches[id].retried
            && after.fetches[id].refreshable == refreshable && after.fetches[id].phase == Requested
            && after.cookie == tab.cookie && after.flight == tab.flight
            && forall other :: other in tab.fetches && other != id ==>
                 other in after.fetches && after.fetches[other] == tab.fetches[other]
  {
  }

  /** A first 401 on a call that may refresh waits, and the refresh it waits on presents the cookie unless one is
      already under way; any other response ends the call as it is. */
  lemma {:induction false} UnauthorizedWaits(tab: Tab, id: int, unauthorized: bool)
    requires id in tab.fetches
    ensures var after := Responded(tab, id, unauthorized);
            && id in after.fetches && after.fetches[id].sent == tab.fetches[id].sent
            && after.fetches[id].retried == tab.fetches[id].retried && after.cookie == tab.cookie
            && (forall other :: other in tab.fetches && other != id ==>
                  other in after.fetches && after.fetches[other] == tab.fetches[other])
            && if unauthorized && tab.fetches[id].refreshable && !tab.fetches[id].retried then
                 && after.fetches[id].phase == AwaitingRefresh && after.flight.Some?
                 && (tab.flight.Some? ==> after.flight == tab.flight)
                 && (tab.flight.None? ==> after.flight == Some(Sent(tab.cookie)))
               else after.fetches[id].phase == Finished && after.flight == tab.flight
  {
  }

  /** A call that waits is sent again exactly if the refresh succeeds, and then its next response ends it. */
  lemma {:induction false} WaitingResumes(tab: Tab, id: int, ok: bool)
    requires id in tab.fetches
    ensures var before, after := tab.fetches[id], Settled(tab, ok);
            && after.flight == None && after.cookie == tab.cookie && id in after.fetches
            && if before.phase == AwaitingRefresh && ok then
                 after.fetches[id] == before.(retried := true, sent := before.sent + 1, phase := Requested)
               else if before.phase == AwaitingRefresh then after.fetches[id] == before.(phase := Finished)
               else after.fetches[id] == before
    ensures ok && tab.fetches[id].phase == AwaitingRefresh ==>
              Responded(Settled(tab, ok), id, true).fetches[id].phase == Finished
  {
  }

  /** In a run, a call whose first response is a 401 and that may refresh waits until the refresh settles, and is then
      sent a second time. */
  lemma {:induction false} RefreshedOnce(worlds: seq<World>, events: seq<Event>, i: nat, j: nat)
    requires Run(worlds, events) && i < j < |events| && events[i].Respond? && events[i].unauthorized
    requires worlds[i].tab.fetches[events[i].id].refreshable && !worlds[i].tab.fetches[events[i].id].retried
    requires (forall k :: i < k < j ==> !events[k].Settle?) && events[j].Settle?
    ensures var id := events[i].id;
            && (forall k :: i < k <= j ==>
                  id in worlds[k].tab.fetches && worlds[k].tab.fetches[id].phase == AwaitingRefresh &&
                  worlds[k].tab.fetches[id].sent == 1)
            && id in worlds[j + 1].tab.fetches && worlds[j + 1].tab.fetches[id].phase == Requested
            && worlds[j + 1].tab.fetches[id].sent == 2
  {
    var id := events[i].id;
    RunKeepsInvariant(worlds, events, i);
    forall k | i < k <= j
      ensures id in worlds[k].tab.fetches && worlds[k].tab.fetches[id].phase == AwaitingRefresh
      ensures worlds[k].tab.fetches[id].sent == 1
    {
      StillWaits(worlds, events, i, k);
    }
    RunKeepsInvariant(worlds, events, j);
    WaitingResumes(worlds[j].tab, id, true);
  }

  lemma {:induction false} StillWaits(worlds: seq<World>, events: seq<Event>, i: nat, k: nat)
    requires Run(worlds, events) && i < k < |worlds| && events[i].Respond? && events[i].unauthorized
    requires worlds[i].tab.fetches[events[i].id].refreshable && !worlds[i].tab.fetches[events[i].id].retried
    requires worlds[i].tab.fetches[events[i].id].sent == 1
    requires forall m :: i < m < k ==> !events[m].Settle?
    ensures var id := events[i].id;
            && id in worlds[k].tab.fetches && worlds[k].tab.fetches[id].phase == AwaitingRefresh
            && worlds[k].tab.fetches[id].sent == 1
  {
    if k == i + 1 {
      UnauthorizedWaits(worlds[i].tab, events[i].id, true);
    } else {
      StillWaits(worlds, events, i, k - 1);
    }
  }
}
