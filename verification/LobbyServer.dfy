/** The lobby as it runs: its tables changed in place by every action (lobby/server.py, Lobby). */
module LobbyServer {
  import opened Bytes
  import opened LobbyState
  import opened LobbyInvariant

  lemma NoneLeft(requests: map<string, Request>, id: string, pendingOnly: bool)
    ensures forall r ::
      r in Without(requests, id, pendingOnly) && Without(requests, id, pendingOnly)[r].Involves(id) ==>
      pendingOnly && Without(requests, id, pendingOnly)[r].accepted
  {}

  class Lobby {
    var players: map<string, Player>
    var requests: map<string, Request>
    var joins: map<string, seq<real>>
    var messages: seq<Message>
    var accounts: map<string, Account>

    constructor (accounts: map<string, Account>)
      ensures Tables() == State(map[], map[], map[], [], accounts)
    {
      players, requests, joins, messages, this.accounts := map[], map[], map[], [], accounts;
    }

    ghost function Tables(): State
      reads this
    {
      State(players, requests, joins, messages, accounts)
    }

    ghost predicate Valid()
      reads this
    {
      Inv(Tables())
    }

    /** Drops silent sessions, then requests that lost a player or expired, then idle join lists. */
    method DropStale(now: real)
      modifies this
      ensures Tables() == Sweep(old(Tables()), now)
    {
      hide LiveRequests, KeepsJoins, Ids;
      DropSessions(now);
      DropRequests(now, Ids(players));
      joins := map ip | ip in joins && KeepsJoins(joins[ip], now) :: joins[ip];
    }

    method DropSessions(now: real)
      modifies this`players
      ensures players == map t | t in old(players) && now - old(players)[t].seen <= LIFETIME :: old(players)[t]
    {
      var todo := players.Keys;
      ghost var all := players;
      while todo != {}
        invariant todo <= all.Keys
        invariant players == map t | t in all && (t in todo || now - all[t].seen <= LIFETIME) :: all[t]
        decreases todo
      {
        var token :| token in todo;
        if now - players[token].seen > LIFETIME {
          players := players - {token};
        }
        todo := todo - {token};
      }
    }

    method DropRequests(now: real, ids: set<string>)
      modifies this`requests
      ensures requests == LiveRequests(old(requests), ids, now)
    {
      var todo := requests.Keys;
      ghost var all := requests;
      while todo != {}
        invariant todo <= all.Keys
        invariant requests == map r | r in all && (r in todo || IsLive(all[r], ids, now)) :: all[r]
        decreases todo
      {
        var rid :| rid in todo;
        if requests[rid].expires < now || requests[rid].sender !in ids || requests[rid].target !in ids {
          requests := requests - {rid};
        }
        todo := todo - {rid};
      }
    }

    /** The session with an id, found by looking at every one. */
    method FindPlayer(id: string) returns (r: Option<string>)
      requires IdsUnique(players)
      ensures r == TokenOf(players, id)
      ensures r.Some? ==> r.value in players
    {
      var todo := players.Keys;
      while todo != {}
        invariant todo <= players.Keys
        invariant forall t :: t in players && t !in todo ==> players[t].profile.id != id
        decreases todo
      {
        var token :| token in todo;
        if players[token].profile.id == id {
          return Some(token);
        }
        todo := todo - {token};
      }
      r := None;
    }

    method FindAccount(id: string) returns (r: Option<string>)
      requires AccountsOk(accounts)
      ensures r == AccountOf(accounts, id)
    {
      var todo := accounts.Keys;
      while todo != {}
        invariant todo <= accounts.Keys
        invariant forall t :: t in accounts && t !in todo ==> accounts[t].profile.id != id
        decreases todo
      {
        var token :| token in todo;
        if accounts[token].profile.id == id {
          return Some(token);
        }
        todo := todo - {token};
      }
      r := None;
    }

    /** Whoever has an account has a session afterwards, seen now, even when the call is refused. */
    method OnPresence(now: real, token: string, status: Option<Status>, stocks: Option<seq<int>>) returns (r: Response)
      modifies this
      ensures (Tables(), r) == DoPresence(old(Tables()), now, token, status, stocks)
      ensures token in old(accounts) ==> token in players && players[token].seen == now
      ensures r.Session? ==>
        players[token].status == status.value
        && (Committed(requests, players[token].profile.id) ==> players[token].busy)
    {
      if token !in accounts {
        return Fail(401);
      }
      var p := if token in players then players[token].(seen := now)
               else NewSession(accounts[token].profile, now, false, false);
      players := players[token := p];
      if status.None? || stocks.None? {
        return Fail(400);
      }
      var busy := status.value != Online || Committed(requests, p.profile.id);
      var shown := if status.value == InMatch then stocks.value else [];
      players := players[token := p.(status := status.value, stocks := shown, busy := busy)];
      r := Session(token, p.profile.id);
    }

    method OnJoin(now: real, token: string, ip: string, body: JoinBody, supply: Supply) returns (r: Response)
      modifies this
      ensures (Tables(), r) == DoJoin(old(Tables()), now, token, ip, body, supply)
    {
      var listed := if ip in joins then joins[ip] else [];
      var times := KeepRecent(listed, now);
      if |times| >= 10 || |players| >= 256 {
        return Fail(429);
      }
      joins := joins[ip := times + [now]];
      if body.code.None? || body.mains.None? {
        return Fail(400);
      }
      if CodeTaken(accounts, body.code.value, token) {
        return Fail(409);
      }
      if body.name.None? || body.location.None? || body.build.None? {
        return Fail(400);
      }
      var known := token in accounts;
      var id := if known then accounts[token].profile.id else supply.id;
      var key := if known then token else supply.token;
      var profile :=
        Profile(id, body.name.value, body.code.value, body.location.value, body.mains.value, body.build.value);
      var friends, incoming := [], [];
      if known {
        friends, incoming := accounts[token].friends, accounts[token].incoming;
      }
      accounts := accounts[key := Account(profile, friends, incoming)];
      players := players[key := NewSession(profile, now, true, body.ready)];
      r := Session(key, id);
    }

    method KeepRecent(times: seq<real>, now: real) returns (recent: seq<real>)
      ensures recent == Recent(times, now)
    {
      recent := [];
      for i := 0 to |times|
        invariant Recent(times, now) == recent + Recent(times[i..], now)
      {
        assert times[i..][1..] == times[i + 1..];
        if now - times[i] < WINDOW {
          assert recent + ([times[i]] + Recent(times[i + 1..], now))
            == (recent + [times[i]]) + Recent(times[i + 1..], now);
          recent := recent + [times[i]];
        }
      }
    }

    /** Ends a player's requests, or only the pending ones. */
    method EndRequests(id: string, pendingOnly: bool)
      modifies this`requests
      ensures requests == Without(old(requests), id, pendingOnly)
    {
      var todo := requests.Keys;
      ghost var all := requests;
      while todo != {}
        invariant todo <= all.Keys
        invariant requests == map r | r in all
          && (r in todo || !(all[r].Involves(id) && (pendingOnly ==> !all[r].accepted))) :: all[r]
        decreases todo
      {
        var rid :| rid in todo;
        if requests[rid].Involves(id) && (pendingOnly ==> !requests[rid].accepted) {
          requests := requests - {rid};
        }
        todo := todo - {rid};
      }
    }

    method OnFriend(token: string, what: FriendAction, target: string) returns (r: Response)
      requires Valid() && token in players
      modifies this`accounts
      ensures (Tables(), r) == DoFriend(old(Tables()), token, what, target)
    {
      hide FriendsOk, Matching, Befriend;
      var other := FindAccount(target);
      if other.None? || target == players[token].profile.id {
        return Fail(404);
      }
      var (me, them, answer) := Befriend(accounts[token], accounts[other.value], what);
      accounts := accounts[token := me][other.value := them];
      r := answer;
    }

    /** An accepted message is the last one kept; the oldest make room. */
    method OnChat(now: real, token: string, text: Option<string>) returns (r: Response)
      requires token in players
      modifies this
      ensures (Tables(), r) == DoChat(old(Tables()), now, token, text)
      ensures r.Done? ==>
        0 < |messages| <= 100
        && messages[|messages| - 1] == Message(players[token].profile.id, text.value, now)
      ensures !r.Done? ==> messages == old(messages)
    {
      var p := players[token];
      if !p.visible || text.None? {
        return Fail(400);
      }
      if now - p.lastChat < 1.0 {
        return Fail(429);
      }
      players := players[token := p.(lastChat := now)];
      messages := messages + [Message(p.profile.id, text.value, now)];
      if |messages| > 100 {
        messages := messages[|messages| - 100..];
      }
      r := Done;
    }

    method OnChallenge(now: real, token: string, target: string, supply: Supply) returns (r: Response)
      requires token in players && IdsUnique(players)
      modifies this
      ensures (Tables(), r) == DoChallenge(old(Tables()), now, token, target, supply)
    {
      hide TokenOf, IdsUnique, Engaged;
      var found := FindPlayer(target);
      var p := players[token];
      if found.None? || found.value == token || !p.visible || !players[found.value].visible {
        return Fail(404);
      }
      var q := players[found.value];
      if p.busy || q.busy || !p.ready || !q.ready || p.profile.build != q.profile.build {
        return Fail(409);
      }
      if Engaged(requests, p.profile.id) || Engaged(requests, q.profile.id) {
        return Fail(409);
      }
      if now - p.lastRequest < 3.0 {
        return Fail(429);
      }
      players := players[token := p.(lastRequest := now)];
      requests := requests[supply.rid := Request(p.profile.id, q.profile.id, false, now + 30.0)];
      r := Requested(supply.rid);
    }

    method OnAccept(now: real, token: string, rid: string) returns (r: Response)
      requires token in players && IdsUnique(players)
      modifies this
      ensures (Tables(), r) == DoAccept(old(Tables()), now, token, rid)
    {
      hide IdsUnique;
      if rid !in requests || !requests[rid].Involves(players[token].profile.id) {
        return Fail(404);
      }
      var request, p := requests[rid], players[token];
      if p.profile.id != request.target || request.accepted {
        return Fail(409);
      }
      var peer := FindPlayer(request.sender);
      if peer.None? {
        return Fail(500);
      }
      if p.busy || players[peer.value].busy {
        return Fail(409);
      }
      players := players[token := p.(busy := true)][peer.value := players[peer.value].(busy := true)];
      requests := requests[rid := request.(accepted := true, expires := now + 120.0)];
      r := Done;
    }

    method OnPoll(token: string) returns (r: Response)
      ensures r == DoPoll(Tables(), token)
    {
      if token !in accounts {
        return Fail(500);
      }
      r := Done;
    }

    /** The session stays, out of sight, and no request of its player is pending any more. */
    method OnLeave(token: string)
      requires token in players
      modifies this
      ensures Tables() == DoLeave(old(Tables()), token)
      ensures token in players && !players[token].visible
      ensures forall r :: r in requests && requests[r].Involves(players[token].profile.id) ==> requests[r].accepted
    {
      hide Without;
      var p := players[token];
      players := players[token := p.(visible := false)];
      NoneLeft(requests, p.profile.id, true);
      EndRequests(p.profile.id, true);
    }

    method OnOffline(token: string, later: real)
      modifies this
      ensures Tables() == DoOffline(old(Tables()), token, later)
    {
      hide Sweep;
      players := players - {token};
      DropStale(later);
    }

    /** The player is in no request any more. */
    method OnAvailable(token: string)
      requires token in players
      modifies this
      ensures Tables() == DoAvailable(old(Tables()), token)
      ensures token in players && !players[token].busy && !Engaged(requests, players[token].profile.id)
    {
      hide Without;
      var p := players[token];
      players := players[token := p.(busy := false)];
      NoneLeft(requests, p.profile.id, false);
      EndRequests(p.profile.id, false);
    }

    method OnCancel(token: string, rid: string) returns (r: Response)
      requires token in players
      modifies this`requests
      ensures (Tables(), r) == DoCancel(old(Tables()), token, rid)
      ensures r.Done? ==> rid !in requests && rid in old(requests) && !old(requests)[rid].accepted
    {
      if rid !in requests || !requests[rid].Involves(players[token].profile.id) {
        return Fail(404);
      }
      if requests[rid].accepted {
        return Fail(409);
      }
      requests := requests - {rid};
      r := Done;
    }

    /** The actions of a session that exists. */
    method OnSession(now: real, later: real, action: Action, token: string, supply: Supply) returns (r: Response)
      requires Valid() && token in players && !action.Presence? && !action.Join?
      modifies this
      ensures (Tables(), r) == Act(old(Tables()), now, later, action, token, supply)
    {
      hide Inv, IdsUnique, DoLeave, DoOffline, DoAvailable, DoCancel, DoFriend, DoChat, DoChallenge, DoAccept;
      SessionIdsHold(Tables());
      r := Done;
      match action
      case Leave => OnLeave(token);
      case Offline => OnOffline(token, later);
      case Poll => r := OnPoll(token);
      case Friend(what, other) => r := OnFriend(token, what, other);
      case Chat(text) => r := OnChat(now, token, text);
      case Available => OnAvailable(token);
      case Challenge(target) => r := OnChallenge(now, token, target, supply);
      case Cancel(rid) => r := OnCancel(token, rid);
      case Accept(rid) => r := OnAccept(now, token, rid);
      case Other(_) => r := Fail(404);
    }

    /** One call. The tables stay valid whatever it answers. */
    method Call(swept: real, now: real, later: real, action: Action, token: string, ip: string, supply: Supply)
        returns (r: Response)
      requires Valid() && Unused(Tables(), supply)
      modifies this
      ensures Valid()
      ensures (Tables(), r) == LobbyState.Call(old(Tables()), swept, now, later, action, token, ip, supply)
    {
      hide Inv, Sweep, DoPresence, DoJoin, Act, Unused;
      CallKeeps(Tables(), swept, now, later, action, token, ip, supply);
      InvSweeps(Tables(), swept);
      DropStale(swept);
      if action.Presence? {
        r := OnPresence(now, token, action.status, action.stocks);
      } else if action.Join? {
        r := OnJoin(now, token, ip, action.body, supply);
      } else if token !in players {
        r := Fail(401);
      } else {
        UpdateKeeps(Tables(), token, players[token].(seen := now));
        players := players[token := players[token].(seen := now)];
        r := OnSession(now, later, action, token, supply);
      }
    }
  }
}
