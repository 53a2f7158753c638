/**
  The lobby's tables and what each action does to them (lobby/server.py,
  Lobby.call and Lobby.sweep), as functions of the whole state.

  Fresh ids, tokens and the clock are inputs. A failing action returns the
  state it leaves behind, which is not always the state it found.
*/
module LobbyState {
  import opened Bytes

  datatype Profile = Profile(id: string, name: string, code: string, location: string, mains: seq<int>, build: string)

  datatype Status = Online | Launching | InGame | InMatch

  datatype Player = Player(
    profile: Profile, seen: real, busy: bool, visible: bool, lastRequest: real, lastChat: real,
    status: Status, stocks: seq<int>, ready: bool)

  datatype Account = Account(profile: Profile, friends: seq<string>, incoming: seq<string>)

  datatype Request = Request(sender: string, target: string, accepted: bool, expires: real) {
    predicate Involves(id: string) {
      id == sender || id == target
    }
  }

  datatype Message = Message(sender: string, text: string, time: real)

  datatype State = State(
    players: map<string, Player>,       // by token
    requests: map<string, Request>,     // by request id
    joins: map<string, seq<real>>,      // by address
    messages: seq<Message>,
    accounts: map<string, Account>)     // by token

  datatype FriendAction = Ask | AcceptFriend | Decline | Unfriend

  /** The fields of a join that passed their own checks; None for one that did not. */
  datatype JoinBody = JoinBody(code: Option<string>, mains: Option<seq<int>>, name: Option<string>,
                               location: Option<string>, build: Option<string>, ready: bool)

  datatype Action =
    | Presence(status: Option<Status>, stocks: Option<seq<int>>)
    | Join(body: JoinBody)
    | Leave
    | Offline
    | Poll
    | Friend(what: FriendAction, other: string)
    | Chat(text: Option<string>)
    | Available
    | Challenge(target: string)
    | Cancel(rid: string)
    | Accept(rid: string)
    | Other(rid: string)

  datatype Supply = Supply(id: string, token: string, rid: string)

  datatype Response = Fail(status: nat) | Done | Session(token: string, id: string) | Requested(rid: string)

  const LIFETIME := 20.0
  const WINDOW := 60.0

  function Ids(players: map<string, Player>): set<string> {
    set t | t in players :: players[t].profile.id
  }

  /** What a sweep drops: silent sessions, requests without both players, and idle join lists. */
  function Sweep(s: State, now: real): State {
    var players := map t | t in s.players && now - s.players[t].seen <= LIFETIME :: s.players[t];
    s.(players := players,
       requests := LiveRequests(s.requests, Ids(players), now),
       joins := map ip | ip in s.joins && KeepsJoins(s.joins[ip], now) :: s.joins[ip])
  }

  function LiveRequests(requests: map<string, Request>, ids: set<string>, now: real): map<string, Request> {
    map r | r in requests && IsLive(requests[r], ids, now) :: requests[r]
  }

  predicate IsLive(r: Request, ids: set<string>, now: real) {
    !(r.expires < now) && r.sender in ids && r.target in ids
  }

  predicate KeepsJoins(times: seq<real>, now: real) {
    times != [] && now - times[|times| - 1] < WINDOW
  }

  /** Requests that do not satisfy `gone`, for one player. */
  function Without(requests: map<string, Request>, id: string, pendingOnly: bool): map<string, Request> {
    map r | r in requests && !(requests[r].Involves(id) && (pendingOnly ==> !requests[r].accepted)) :: requests[r]
  }

  function Touch(s: State, token: string, now: real): State
    requires token in s.players
  {
    s.(players := s.players[token := s.players[token].(seen := now)])
  }

  /** The token of the session with an id: the one there is. */
  ghost function TokenOf(players: map<string, Player>, id: string): Option<string> {
    if id in Ids(players) then var t :| t in players && players[t].profile.id == id; Some(t) else None
  }

  ghost function AccountOf(accounts: map<string, Account>, id: string): Option<string> {
    if exists t :: t in accounts && accounts[t].profile.id == id
    then var t :| t in accounts && accounts[t].profile.id == id; Some(t) else None
  }

  function NewSession(profile: Profile, now: real, visible: bool, ready: bool): Player {
    Player(profile, now, false, visible, -100.0, -100.0, Online, [], ready)
  }

  predicate Committed(requests: map<string, Request>, id: string) {
    exists r :: r in requests && requests[r].accepted && requests[r].Involves(id)
  }

  predicate Engaged(requests: map<string, Request>, id: string) {
    exists r :: r in requests && requests[r].Involves(id)
  }

  function DoPresence(s: State, now: real, token: string, status: Option<Status>, stocks: Option<seq<int>>)
      : (State, Response)
  {
    if token !in s.accounts then (s, Fail(401))
    else
      var p := if token in s.players then s.players[token].(seen := now)
               else NewSession(s.accounts[token].profile, now, false, false);
      var seen := s.(players := s.players[token := p]);
      if status.None? || stocks.None? then (seen, Fail(400))
      else
        var busy := status.value != Online || Committed(s.requests, p.profile.id);
        var shown := if status.value == InMatch then stocks.value else [];
        (seen.(players := seen.players[token := p.(status := status.value, stocks := shown, busy := busy)]),
         Session(token, p.profile.id))
  }

  /** The join times of an address still inside the window. */
  function Recent(times: seq<real>, now: real): seq<real> {
    if times == [] then []
    else if now - times[0] < WINDOW then [times[0]] + Recent(times[1..], now)
    else Recent(times[1..], now)
  }

  function JoinTimes(s: State, ip: string, now: real): seq<real> {
    if ip in s.joins then Recent(s.joins[ip], now) else []
  }

  /** Whether the limiter lets a join through. */
  predicate Admits(s: State, ip: string, now: real) {
    |JoinTimes(s, ip, now)| < 10 && |s.players| < 256
  }

  predicate CodeTaken(accounts: map<string, Account>, code: string, token: string) {
    exists t :: t in accounts && t != token && accounts[t].profile.code == code
  }

  function DoJoin(s: State, now: real, token: string, ip: string, body: JoinBody, supply: Supply): (State, Response) {
    if !Admits(s, ip, now) then (s, Fail(429))
    else
      var s1 := s.(joins := s.joins[ip := JoinTimes(s, ip, now) + [now]]);
      if body.code.None? || body.mains.None? then (s1, Fail(400))
      else if CodeTaken(s.accounts, body.code.value, token) then (s1, Fail(409))
      else if body.name.None? || body.location.None? || body.build.None? then (s1, Fail(400))
      else
        var known := token in s.accounts;
        var key := if known then token else supply.token;
        var id := if known then s.accounts[token].profile.id else supply.id;
        var profile :=
          Profile(id, body.name.value, body.code.value, body.location.value, body.mains.value, body.build.value);
        var account := if known then s.accounts[token].(profile := profile) else Account(profile, [], []);
        (s1.(accounts := s.accounts[key := account],
             players := s.players[key := NewSession(profile, now, true, body.ready)]),
         Session(key, id))
  }

  function DoLeave(s: State, token: string): State
    requires token in s.players
  {
    var p := s.players[token];
    s.(players := s.players[token := p.(visible := false)], requests := Without(s.requests, p.profile.id, true))
  }

  function DoOffline(s: State, token: string, later: real): State {
    Sweep(s.(players := s.players - {token}), later)
  }

  function RemoveFirst(s: seq<string>, x: string): seq<string> {
    if s == [] then [] else if s[0] == x then s[1..] else [s[0]] + RemoveFirst(s[1..], x)
  }

  function Without1(s: seq<string>, x: string): seq<string> {
    if s == [] then [] else (if s[0] == x then [] else [s[0]]) + Without1(s[1..], x)
  }

  function AddNew(s: seq<string>, x: string): seq<string> {
    if x in s then s else s + [x]
  }

  /** A friend action between two accounts: both afterwards, and the answer. */
  function Befriend(me: Account, other: Account, what: FriendAction): (Account, Account, Response) {
    var (mine, theirs) := (me.profile.id, other.profile.id);
    match what
    case Ask =>
      if theirs in me.friends then (me, other, Done)
      else if |other.incoming| >= 100 || |me.friends| >= 100 then (me, other, Fail(429))
      else (me, other.(incoming := AddNew(other.incoming, mine)), Done)
    case AcceptFriend =>
      if theirs !in me.incoming then (me, other, Fail(404))
      else (me.(incoming := RemoveFirst(me.incoming, theirs), friends := AddNew(me.friends, theirs)),
            other.(incoming := RemoveFirst(other.incoming, mine), friends := AddNew(other.friends, mine)), Done)
    case Decline =>
      if theirs !in me.incoming then (me, other, Fail(404))
      else (me.(incoming := RemoveFirst(me.incoming, theirs)), other, Done)
    case Unfriend =>
      (me.(friends := Without1(me.friends, theirs)), other.(friends := Without1(other.friends, mine)), Done)
  }

  /** Fail(500): the session has no account. LobbyInvariant.LookupsSucceed shows it always has. */
  ghost function DoFriend(s: State, token: string, what: FriendAction, target: string): (State, Response)
    requires token in s.players
  {
    var other := AccountOf(s.accounts, target);
    if token !in s.accounts then (s, Fail(500))
    else if other.None? || target == s.players[token].profile.id then (s, Fail(404))
    else
      var (me, them, r) := Befriend(s.accounts[token], s.accounts[other.value], what);
      (s.(accounts := s.accounts[token := me][other.value := them]), r)
  }

  function DoChat(s: State, now: real, token: string, text: Option<string>): (State, Response)
    requires token in s.players
  {
    var p := s.players[token];
    if !p.visible || text.None? then (s, Fail(400))
    else if now - p.lastChat < 1.0 then (s, Fail(429))
    else
      var all := s.messages + [Message(p.profile.id, text.value, now)];
      (s.(players := s.players[token := p.(lastChat := now)],
          messages := if |all| > 100 then all[|all| - 100..] else all), Done)
  }

  function DoAvailable(s: State, token: string): State
    requires token in s.players
  {
    var p := s.players[token];
    s.(players := s.players[token := p.(busy := false)], requests := Without(s.requests, p.profile.id, false))
  }

  ghost function DoChallenge(s: State, now: real, token: string, target: string, supply: Supply): (State, Response)
    requires token in s.players
  {
    var p, found := s.players[token], TokenOf(s.players, target);
    if found.None? || found.value == token || !p.visible || !s.players[found.value].visible then (s, Fail(404))
    else
      var q := s.players[found.value];
      if p.busy || q.busy || !p.ready || !q.ready || p.profile.build != q.profile.build then (s, Fail(409))
      else if Engaged(s.requests, p.profile.id) || Engaged(s.requests, q.profile.id) then (s, Fail(409))
      else if now - p.lastRequest < 3.0 then (s, Fail(429))
      else
        (s.(players := s.players[token := p.(lastRequest := now)],
            requests := s.requests[supply.rid := Request(p.profile.id, q.profile.id, false, now + 30.0)]),
         Requested(supply.rid))
  }

  function DoCancel(s: State, token: string, rid: string): (State, Response)
    requires token in s.players
  {
    if rid !in s.requests || !s.requests[rid].Involves(s.players[token].profile.id) then (s, Fail(404))
    else if s.requests[rid].accepted then (s, Fail(409))
    else (s.(requests := s.requests - {rid}), Done)
  }

  /** Fail(500): the sender's session is not there. LobbyInvariant.LookupsSucceed shows it always is. */
  ghost function DoAccept(s: State, now: real, token: string, rid: string): (State, Response)
    requires token in s.players
  {
    var p := s.players[token];
    if rid !in s.requests || !s.requests[rid].Involves(p.profile.id) then (s, Fail(404))
    else
      var r := s.requests[rid];
      if p.profile.id != r.target || r.accepted then (s, Fail(409))
      else
        var peer := TokenOf(s.players, r.sender);
        if peer.None? then (s, Fail(500))
        else if p.busy || s.players[peer.value].busy then (s, Fail(409))
        else
          (s.(players := s.players[token := p.(busy := true)][peer.value := s.players[peer.value].(busy := true)],
              requests := s.requests[rid := r.(accepted := true, expires := now + 120.0)]), Done)
  }

  /** Poll looks up the session's account. Fail(500): it is not there. What poll answers is not modelled. */
  function DoPoll(s: State, token: string): Response {
    if token in s.accounts then Done else Fail(500)
  }

  /** Actions of a session that exists. */
  ghost function Act(s: State, now: real, later: real, action: Action, token: string, supply: Supply): (State, Response)
    requires token in s.players && !action.Presence? && !action.Join?
  {
    match action
    case Leave => (DoLeave(s, token), Done)
    case Offline => (DoOffline(s, token, later), Done)
    case Poll => (s, DoPoll(s, token))
    case Friend(what, other) => DoFriend(s, token, what, other)
    case Chat(text) => DoChat(s, now, token, text)
    case Available => (DoAvailable(s, token), Done)
    case Challenge(target) => DoChallenge(s, now, token, target, supply)
    case Cancel(rid) => DoCancel(s, token, rid)
    case Accept(rid) => DoAccept(s, now, token, rid)
    case Other(_) => (s, Fail(404))
  }

  /** One call. It reads the clock for its sweep, then for itself; `later` is the third reading, of `offline`. */
  ghost function Call(s0: State, swept: real, now: real, later: real, action: Action, token: string, ip: string,
      supply: Supply): (State, Response) {
    var s := Sweep(s0, swept);
    if action.Presence? then DoPresence(s, now, token, action.status, action.stocks)
    else if action.Join? then DoJoin(s, now, token, ip, action.body, supply)
    else if token !in s.players then (s, Fail(401))
    else Act(Touch(s, token, now), now, later, action, token, supply)
  }
}
