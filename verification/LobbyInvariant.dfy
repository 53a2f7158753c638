/**
  What every lobby call keeps, whatever it answers: accounts and sessions
  agree, requests form a matching of online players, and friendship is a
  symmetric relation without duplicates.
*/
module LobbyInvariant {
  import opened Bytes
  import opened LobbyState

  // ---- the invariant ----

  predicate NoDup(s: seq<string>) {
    forall i, j :: 0 <= i < j < |s| ==> s[i] != s[j]
  }

  /** No two accounts share an id or a connect code. */
  ghost predicate AccountsOk(accounts: map<string, Account>) {
    && (forall t, u :: t in accounts && u in accounts && t != u ==> accounts[t].profile.id != accounts[u].profile.id)
    && (forall t, u :: t in accounts && u in accounts && t != u ==>
      accounts[t].profile.code != accounts[u].profile.code)
  }

  /** Every session belongs to the account with its token, and shows its profile. */
  ghost predicate SessionsOk(players: map<string, Player>, accounts: map<string, Account>) {
    forall t :: t in players ==> t in accounts && players[t].profile == accounts[t].profile
  }

  ghost predicate IdsUnique(players: map<string, Player>) {
    forall t, u :: t in players && u in players && players[t].profile.id == players[u].profile.id ==> t == u
  }

  ghost predicate Visible(players: map<string, Player>, id: string) {
    forall t :: t in players && players[t].profile.id == id ==> players[t].visible
  }

  ghost predicate RequestOk(r: Request, players: map<string, Player>) {
    && r.sender != r.target
    && r.sender in Ids(players) && r.target in Ids(players)
    && (!r.accepted ==> Visible(players, r.sender) && Visible(players, r.target))
  }

  predicate Apart(r: Request, q: Request) {
    !r.Involves(q.sender) && !r.Involves(q.target)
  }

  /** The requests are a matching: each joins two different online players, and no player is in two. */
  ghost predicate Matching(requests: map<string, Request>, players: map<string, Player>) {
    && (forall r :: r in requests ==> RequestOk(requests[r], players))
    && (forall r, q :: r in requests && q in requests && r != q ==> Apart(requests[r], requests[q]))
  }

  predicate AccountOk(a: Account) {
    && NoDup(a.friends) && NoDup(a.incoming) && |a.incoming| <= 100
    && a.profile.id !in a.friends && a.profile.id !in a.incoming
    && forall x :: x in a.friends ==> x !in a.incoming
  }

  ghost predicate FriendsOk(accounts: map<string, Account>) {
    && (forall t :: t in accounts ==> AccountOk(accounts[t]))
    && (forall t, u :: t in accounts && u in accounts ==>
          (accounts[u].profile.id in accounts[t].friends <==> accounts[t].profile.id in accounts[u].friends))
    && (forall t, x :: t in accounts && x in accounts[t].friends ==> IsAccount(accounts, x))
  }

  ghost predicate IsAccount(accounts: map<string, Account>, id: string) {
    exists t :: t in accounts && accounts[t].profile.id == id
  }

  ghost predicate Inv(s: State) {
    && AccountsOk(s.accounts) && FriendsOk(s.accounts)
    && SessionsOk(s.players, s.accounts)
    && Matching(s.requests, s.players)
    && |s.messages| <= 100
  }

  /** Ids, tokens and request ids handed out are not in use. */
  ghost predicate Unused(s: State, supply: Supply) {
    && supply.token !in s.accounts && supply.rid !in s.requests
    && !IsAccount(s.accounts, supply.id)
    && (forall t :: t in s.accounts ==> supply.id !in s.accounts[t].friends && supply.id !in s.accounts[t].incoming)
  }

  // ---- lists of ids ----

  lemma {:induction false} RemovedFirst(s: seq<string>, x: string)
    requires NoDup(s)
    ensures NoDup(RemoveFirst(s, x)) && |RemoveFirst(s, x)| <= |s|
    ensures forall y :: y in RemoveFirst(s, x) <==> y in s && y != x
  {
    if s != [] && s[0] != x {
      RemovedFirst(s[1..], x);
      var r := RemoveFirst(s[1..], x);
      assert RemoveFirst(s, x) == [s[0]] + r;
      assert s[0] !in s[1..];
    } else if s != [] {
      assert x !in s[1..];
      assert s == [x] + s[1..];
    }
  }

  lemma {:induction false} RemovedAll(s: seq<string>, x: string)
    requires NoDup(s)
    ensures NoDup(Without1(s, x))
    ensures forall y :: y in Without1(s, x) <==> y in s && y != x
  {
    if s != [] {
      RemovedAll(s[1..], x);
      assert s == [s[0]] + s[1..];
      assert s[0] !in s[1..];
    }
  }

  lemma AddedNew(s: seq<string>, x: string)
    requires NoDup(s)
    ensures NoDup(AddNew(s, x)) && |AddNew(s, x)| <= |s| + 1
    ensures forall y :: y in AddNew(s, x) <==> y in s || y == x
  {}

  /** A friend action keeps both accounts sound and their friendship mutual, and touches no other friend. */
  lemma BefriendKeeps(me: Account, other: Account, what: FriendAction)
    requires AccountOk(me) && AccountOk(other) && me.profile.id != other.profile.id
    requires other.profile.id in me.friends <==> me.profile.id in other.friends
    ensures var (a, b, _) := Befriend(me, other, what);
      && a.profile == me.profile && b.profile == other.profile
      && AccountOk(a) && AccountOk(b)
      && (other.profile.id in a.friends <==> me.profile.id in b.friends)
      && (forall x :: x != other.profile.id ==> (x in a.friends <==> x in me.friends))
      && (forall x :: x != me.profile.id ==> (x in b.friends <==> x in other.friends))
  {
    hide RemoveFirst, Without1, AddNew, NoDup;
    var mine, theirs := me.profile.id, other.profile.id;
    RemovedFirst(me.incoming, theirs);
    RemovedFirst(other.incoming, mine);
    RemovedAll(me.friends, theirs);
    RemovedAll(other.friends, mine);
    AddedNew(me.friends, theirs);
    AddedNew(other.friends, mine);
    AddedNew(other.incoming, mine);
  }

  // ---- sessions and requests ----

  lemma SessionIds(s: State)
    requires AccountsOk(s.accounts) && SessionsOk(s.players, s.accounts)
    ensures IdsUnique(s.players)
  {}

  /** Fewer requests are still a matching, when the players they join are still there and as visible. */
  lemma MatchingShrinks(requests: map<string, Request>, fewer: map<string, Request>, players: map<string, Player>,
      players': map<string, Player>)
    requires Matching(requests, players)
    requires forall r :: r in fewer ==> r in requests && fewer[r] == requests[r]
    requires forall r :: r in fewer ==> RequestOk(fewer[r], players')
    ensures Matching(fewer, players')
  {
    hide RequestOk;
  }

  /** The same ids and visibilities keep every request sound. */
  lemma SameViews(requests: map<string, Request>, players: map<string, Player>, players': map<string, Player>)
    requires Matching(requests, players)
    requires players'.Keys == players.Keys
    requires forall t :: t in players ==>
      players'[t].profile == players[t].profile && players'[t].visible == players[t].visible
    ensures Matching(requests, players')
  {
    forall r | r in requests
      ensures RequestOk(requests[r], players')
    {
      assert RequestOk(requests[r], players);
      SameIds(players, players');
    }
    MatchingShrinks(requests, requests, players, players');
  }

  lemma SameIds(players: map<string, Player>, players': map<string, Player>)
    requires players'.Keys == players.Keys
    requires forall t :: t in players ==> players'[t].profile == players[t].profile
    ensures Ids(players') == Ids(players)
  {
    assert forall t :: t in players' ==> players'[t].profile.id == players[t].profile.id;
  }

  lemma SweepKeeps(s: State, now: real)
    requires AccountsOk(s.accounts) && FriendsOk(s.accounts) && SessionsOk(s.players, s.accounts) && |s.messages| <= 100
    requires forall r, q :: r in s.requests && q in s.requests && r != q ==> Apart(s.requests[r], s.requests[q])
    requires forall r :: r in s.requests ==> s.requests[r].sender != s.requests[r].target
    requires forall r :: r in s.requests && !s.requests[r].accepted ==>
      Visible(s.players, s.requests[r].sender) && Visible(s.players, s.requests[r].target)
    ensures Inv(Sweep(s, now))
  {
    hide FriendsOk, AccountsOk, KeepsJoins;
  }

  lemma InvSweeps(s: State, now: real)
    requires Inv(s)
    ensures Inv(Sweep(s, now))
  {
    hide FriendsOk, AccountsOk, SessionsOk, Sweep, Visible;
    SweepKeeps(s, now);
  }

  /** A change to one session that keeps its profile and visibility. */
  lemma UpdateKeeps(s: State, token: string, p: Player)
    requires Inv(s) && token in s.players
    requires p.profile == s.players[token].profile && p.visible == s.players[token].visible
    ensures Inv(s.(players := s.players[token := p]))
  {
    hide FriendsOk, AccountsOk, Matching;
    SameViews(s.requests, s.players, s.players[token := p]);
  }

  /** Ids of a table in which one session is added or renewed. */
  lemma IdKept(players: map<string, Player>, token: string, p: Player, id: string)
    requires id in Ids(players) && (token in players ==> players[token].profile.id == p.profile.id)
    ensures id in Ids(players[token := p])
  {
    var t :| t in players && players[t].profile.id == id;
    assert players[token := p][t].profile.id == id;
  }

  /** No other session has the id of the one added: the others keep their accounts. */
  lemma OthersDiffer(s: State, accounts: map<string, Account>, token: string, p: Player, t: string)
    requires AccountsOk(accounts) && SessionsOk(s.players, s.accounts)
    requires token in accounts && accounts[token].profile == p.profile
    requires forall u :: u in s.accounts && u != token ==> u in accounts && accounts[u].profile == s.accounts[u].profile
    requires t in s.players && t != token
    ensures s.players[t].profile.id != p.profile.id && t in accounts && s.players[t].profile == accounts[t].profile
  {}

  lemma RequestSurvives(q: Request, players: map<string, Player>, token: string, p: Player)
    requires RequestOk(q, players)
    requires token in players ==> players[token].profile.id == p.profile.id && p.visible
    requires token !in players ==> forall t :: t in players ==> players[t].profile.id != p.profile.id
    ensures RequestOk(q, players[token := p])
  {
    IdKept(players, token, p, q.sender);
    IdKept(players, token, p, q.target);
  }

  lemma SessionsAdded(s: State, accounts: map<string, Account>, token: string, p: Player)
    requires AccountsOk(accounts) && SessionsOk(s.players, s.accounts)
    requires token in accounts && accounts[token].profile == p.profile
    requires forall u :: u in s.accounts && u != token ==> u in accounts && accounts[u].profile == s.accounts[u].profile
    ensures SessionsOk(s.players[token := p], accounts)
    ensures forall t :: t in s.players && t != token ==> s.players[t].profile.id != p.profile.id
  {
    hide AccountsOk;
    forall t | t in s.players && t != token
      ensures s.players[t].profile.id != p.profile.id && t in accounts && s.players[t].profile == accounts[t].profile
    {
      OthersDiffer(s, accounts, token, p, t);
    }
  }

  /** A new or renewed session, as visible as the old one at least, joined to no request when new. */
  lemma SessionAdded(s: State, accounts: map<string, Account>, token: string, p: Player)
    requires Inv(s) && AccountsOk(accounts) && FriendsOk(accounts)
    requires token in accounts && accounts[token].profile == p.profile
    requires forall t :: t in s.accounts && t != token ==> t in accounts && accounts[t].profile == s.accounts[t].profile
    requires token in s.players ==> s.players[token].profile.id == p.profile.id && p.visible
    ensures Inv(s.(accounts := accounts, players := s.players[token := p]))
  {
    hide FriendsOk, AccountsOk, SessionsOk, RequestOk;
    SessionsAdded(s, accounts, token, p);
    forall r | r in s.requests
      ensures RequestOk(s.requests[r], s.players[token := p])
    {
      RequestSurvives(s.requests[r], s.players, token, p);
    }
    MatchingShrinks(s.requests, s.requests, s.players, s.players[token := p]);
  }

  lemma PresenceKeeps(s: State, now: real, token: string, status: Option<Status>, stocks: Option<seq<int>>)
    requires Inv(s)
    ensures Inv(DoPresence(s, now, token, status, stocks).0)
  {
    hide SessionsOk, AccountsOk, FriendsOk, Matching;
    if token in s.accounts {
      hide Inv, Committed;
      var p := if token in s.players then s.players[token].(seen := now)
               else NewSession(s.accounts[token].profile, now, false, false);
      if token in s.players {
        UpdateKeeps(s, token, p);
      } else {
        InvParts(s);
        SessionAdded(s, s.accounts, token, p);
        assert s.(accounts := s.accounts, players := s.players[token := p]) == s.(players := s.players[token := p]);
      }
      if status.Some? && stocks.Some? {
        var seen := s.(players := s.players[token := p]);
        var shown := if status.value == InMatch then stocks.value else [];
        var busy := status.value != Online || Committed(s.requests, p.profile.id);
        UpdateKeeps(seen, token, p.(status := status.value, stocks := shown, busy := busy));
      }
    }
  }

  lemma InvParts(s: State)
    requires Inv(s)
    ensures AccountsOk(s.accounts) && FriendsOk(s.accounts) && SessionsOk(s.players, s.accounts)
  {}

  // ---- accounts ----

  lemma ProfileChanges(accounts: map<string, Account>, key: string, a: Account)
    requires AccountsOk(accounts) && FriendsOk(accounts) && AccountOk(a)
    requires forall t :: t in accounts && t != key ==> accounts[t].profile.code != a.profile.code
    requires key in accounts ==> a == accounts[key].(profile := a.profile) && a.profile.id == accounts[key].profile.id
    requires key !in accounts ==> a.friends == [] && a.incoming == [] && !IsAccount(accounts, a.profile.id)
    requires key !in accounts ==> forall t :: t in accounts ==> a.profile.id !in accounts[t].friends
    ensures AccountsOk(accounts[key := a]) && FriendsOk(accounts[key := a])
  {
    hide AccountOk;
    var more := accounts[key := a];
    forall t, x | t in more && x in more[t].friends
      ensures IsAccount(more, x)
    {
      assert IsAccount(accounts, x);
      var u :| u in accounts && accounts[u].profile.id == x;
      assert u in more && more[u].profile.id == x;
    }
    forall t, u | t in more && u in more && t != u
      ensures more[t].profile.id != more[u].profile.id
    {
      if key !in accounts {
        assert t in accounts ==> accounts[t].profile.id != a.profile.id;
        assert u in accounts ==> accounts[u].profile.id != a.profile.id;
      }
    }
  }

  lemma JoinKeeps(s: State, now: real, token: string, ip: string, body: JoinBody, supply: Supply)
    requires Inv(s) && Unused(s, supply)
    ensures Inv(DoJoin(s, now, token, ip, body, supply).0)
  {
    hide FriendsOk, AccountsOk, Matching, Admits, JoinTimes;
    var (s2, r) := DoJoin(s, now, token, ip, body, supply);
    var s1 := s.(joins := s2.joins);
    if r.Session? {
      var key := r.token;
      var a := s2.accounts[key];
      assert AccountOk(a) by {
        if token in s.accounts {
          FriendsFact(s.accounts, token);
        }
      }
      ProfileChanges(s.accounts, key, a);
      SessionAdded(s1, s2.accounts, key, s2.players[key]);
    }
  }

  lemma FriendsFact(accounts: map<string, Account>, t: string)
    requires FriendsOk(accounts) && t in accounts
    ensures AccountOk(accounts[t])
  {}

  lemma FriendKeeps(s: State, token: string, what: FriendAction, target: string)
    requires Inv(s) && token in s.players
    ensures Inv(DoFriend(s, token, what, target).0)
  {
    hide AccountOk, Befriend, Matching, AccountsOk, FriendsOk, SessionsOk, AccountOf;
    var found := AccountOf(s.accounts, target);
    SessionFact(s.players, s.accounts, token);
    AccountFound(s.accounts, target);
    if found.Some? && target != s.players[token].profile.id {
      BefriendAccounts(s.accounts, token, found.value, what);
      SameProfiles(s.players, s.accounts, DoFriend(s, token, what, target).0.accounts);
    }
  }

  lemma SessionFact(players: map<string, Player>, accounts: map<string, Account>, token: string)
    requires SessionsOk(players, accounts) && token in players
    ensures token in accounts && accounts[token].profile == players[token].profile
  {}

  lemma AccountFound(accounts: map<string, Account>, target: string)
    ensures var r := AccountOf(accounts, target);
      r.Some? ==> r.value in accounts && accounts[r.value].profile.id == target
  {}

  lemma SameProfiles(players: map<string, Player>, accounts: map<string, Account>, after: map<string, Account>)
    requires SessionsOk(players, accounts) && after.Keys == accounts.Keys
    requires forall t :: t in accounts ==> after[t].profile == accounts[t].profile
    ensures SessionsOk(players, after)
  {}

  lemma BefriendAccounts(accounts: map<string, Account>, token: string, other: string, what: FriendAction)
    requires AccountsOk(accounts) && FriendsOk(accounts) && token in accounts && other in accounts
    requires accounts[token].profile.id != accounts[other].profile.id
    ensures var (a, b, _) := Befriend(accounts[token], accounts[other], what);
      var after := accounts[token := a][other := b];
      && AccountsOk(after) && FriendsOk(after) && after.Keys == accounts.Keys
      && forall t :: t in accounts ==> after[t].profile == accounts[t].profile
  {
    hide AccountOk, Befriend, AccountsOk, FriendsOk;
    var me, them := accounts[token], accounts[other];
    FriendsFact(accounts, token);
    FriendsFact(accounts, other);
    MutualFact(accounts, token, other);
    BefriendKeeps(me, them, what);
    var (a, b, _) := Befriend(me, them, what);
    var after := accounts[token := a][other := b];
    forall t | t in after
      ensures after[t].profile == accounts[t].profile && AccountOk(after[t])
    {
      FriendsFact(accounts, t);
    }
    PairChanged(accounts, after, token, other);
  }

  lemma MutualFact(accounts: map<string, Account>, t: string, u: string)
    requires FriendsOk(accounts) && t in accounts && u in accounts
    ensures accounts[u].profile.id in accounts[t].friends <==> accounts[t].profile.id in accounts[u].friends
  {}

  /** Two accounts change towards each other only, mutually. */
  lemma PairChanged(accounts: map<string, Account>, after: map<string, Account>, t0: string, u0: string)
    requires FriendsOk(accounts) && AccountsOk(accounts) && t0 in accounts && u0 in accounts && t0 != u0
    requires after.Keys == accounts.Keys
    requires forall t :: t in after ==> after[t].profile == accounts[t].profile && AccountOk(after[t])
    requires forall t :: t in after && t != t0 && t != u0 ==> after[t] == accounts[t]
    requires forall x :: x != accounts[u0].profile.id ==> (x in after[t0].friends <==> x in accounts[t0].friends)
    requires forall x :: x != accounts[t0].profile.id ==> (x in after[u0].friends <==> x in accounts[u0].friends)
    requires accounts[u0].profile.id in after[t0].friends <==> accounts[t0].profile.id in after[u0].friends
    ensures FriendsOk(after) && AccountsOk(after)
  {
    hide AccountOk;
    forall t, u | t in after && u in after
      ensures after[u].profile.id in after[t].friends <==> after[t].profile.id in after[u].friends
    {
      assert accounts[u].profile.id in accounts[t].friends <==> accounts[t].profile.id in accounts[u].friends;
      assert u != t0 ==> accounts[u].profile.id != accounts[t0].profile.id;
      assert u != u0 ==> accounts[u].profile.id != accounts[u0].profile.id;
      assert t != t0 ==> accounts[t].profile.id != accounts[t0].profile.id;
      assert t != u0 ==> accounts[t].profile.id != accounts[u0].profile.id;
    }
    forall t, x | t in after && x in after[t].friends
      ensures IsAccount(after, x)
    {
      var owner := if x in accounts[t].friends then Owner(accounts, x) else if t == t0 then u0 else t0;
      assert owner in after && after[owner].profile.id == x;
    }
  }

  ghost function Owner(accounts: map<string, Account>, id: string): (t: string)
    requires IsAccount(accounts, id)
    ensures t in accounts && accounts[t].profile.id == id
  {
    var t :| t in accounts && accounts[t].profile.id == id;
    t
  }

  // ---- requests ----

  lemma RequestOutlives(q: Request, players: map<string, Player>, token: string)
    requires RequestOk(q, players) && token in players
    requires q.Involves(players[token].profile.id) ==> q.accepted
    ensures RequestOk(q, players[token := players[token].(visible := false)])
  {
    SameIds(players, players[token := players[token].(visible := false)]);
  }

  lemma LeaveKeeps(s: State, token: string)
    requires Inv(s) && token in s.players
    ensures Inv(DoLeave(s, token))
  {
    var s' := DoLeave(s, token);
    assert SessionsOk(s'.players, s'.accounts);
    hide FriendsOk, AccountsOk, SessionsOk, RequestOk;
    forall r | r in s'.requests
      ensures RequestOk(s'.requests[r], s'.players)
    {
      RequestOutlives(s.requests[r], s.players, token);
    }
    MatchingShrinks(s.requests, s'.requests, s.players, s'.players);
  }

  lemma SessionIdsHold(s: State)
    requires Inv(s)
    ensures IdsUnique(s.players)
  {
    SessionIds(s);
  }

  lemma OfflineKeeps(s: State, token: string, later: real)
    requires Inv(s)
    ensures Inv(DoOffline(s, token, later))
  {
    hide FriendsOk, AccountsOk, Sweep;
    var gone := s.(players := s.players - {token});
    assert SessionsOk(gone.players, gone.accounts);
    forall r | r in s.requests
      ensures s.requests[r].sender != s.requests[r].target
      ensures !s.requests[r].accepted ==>
        Visible(gone.players, s.requests[r].sender) && Visible(gone.players, s.requests[r].target)
    {
      assert RequestOk(s.requests[r], s.players);
    }
    SweepKeeps(gone, later);
  }

  lemma FewerRequests(s: State, fewer: map<string, Request>)
    requires Inv(s) && forall r :: r in fewer ==> r in s.requests && fewer[r] == s.requests[r]
    ensures Inv(s.(requests := fewer))
  {
    hide FriendsOk, AccountsOk, SessionsOk, RequestOk;
    MatchingShrinks(s.requests, fewer, s.players, s.players);
  }

  lemma AvailableKeeps(s: State, token: string)
    requires Inv(s) && token in s.players
    ensures Inv(DoAvailable(s, token))
  {
    hide Inv;
    var s1 := s.(players := s.players[token := s.players[token].(busy := false)]);
    UpdateKeeps(s, token, s.players[token].(busy := false));
    FewerRequests(s1, Without(s1.requests, s.players[token].profile.id, false));
  }

  /** A request between two different, visible players who are in none. */
  lemma RequestAdded(s: State, rid: string, q: Request)
    requires Inv(s) && rid !in s.requests && RequestOk(q, s.players)
    requires !Engaged(s.requests, q.sender) && !Engaged(s.requests, q.target)
    ensures Inv(s.(requests := s.requests[rid := q]))
  {
    hide FriendsOk, AccountsOk, SessionsOk, RequestOk;
    forall r | r in s.requests
      ensures Apart(s.requests[r], q) && Apart(q, s.requests[r])
    {}
  }

  lemma ChallengeOk(players: map<string, Player>, t1: string, t2: string, p: Player, expires: real)
    requires IdsUnique(players) && t1 in players && t2 in players && t1 != t2
    requires players[t1].visible && players[t2].visible
    requires p.profile == players[t1].profile && p.visible
    ensures RequestOk(Request(players[t1].profile.id, players[t2].profile.id, false, expires), players[t1 := p])
  {
    SameIds(players, players[t1 := p]);
  }

  lemma ChallengeKeeps(s: State, now: real, token: string, target: string, supply: Supply)
    requires Inv(s) && token in s.players && supply.rid !in s.requests
    ensures Inv(DoChallenge(s, now, token, target, supply).0)
  {
    hide Inv, RequestOk, Engaged, IdsUnique;
    var (s', r) := DoChallenge(s, now, token, target, supply);
    if r.Requested? {
      SessionIdsHold(s);
      var p, t2 := s.players[token].(lastRequest := now), TokenOf(s.players, target).value;
      var s1 := s.(players := s.players[token := p]);
      ChallengeOk(s.players, token, t2, p, now + 30.0);
      UpdateKeeps(s, token, p);
      RequestAdded(s1, supply.rid, s'.requests[supply.rid]);
    }
  }

  lemma RequestAccepted(s: State, rid: string, expires: real)
    requires Inv(s) && rid in s.requests
    ensures Inv(s.(requests := s.requests[rid := s.requests[rid].(accepted := true, expires := expires)]))
  {
    hide FriendsOk, AccountsOk, SessionsOk, Visible;
    var q := s.requests[rid].(accepted := true, expires := expires);
    assert RequestOk(s.requests[rid], s.players);
    forall r | r in s.requests && r != rid
      ensures Apart(s.requests[r], q) && Apart(q, s.requests[r])
    {
      assert Apart(s.requests[r], s.requests[rid]) && Apart(s.requests[rid], s.requests[r]);
    }
  }

  lemma AcceptKeeps(s: State, now: real, token: string, rid: string)
    requires Inv(s) && token in s.players
    ensures Inv(DoAccept(s, now, token, rid).0)
  {
    hide Inv;
    var (s', r) := DoAccept(s, now, token, rid);
    if r == Done {
      var peer := TokenOf(s.players, s.requests[rid].sender).value;
      var s1 := s.(players := s.players[token := s.players[token].(busy := true)]);
      UpdateKeeps(s, token, s.players[token].(busy := true));
      UpdateKeeps(s1, peer, s.players[peer].(busy := true));
      RequestAccepted(s1.(players := s'.players), rid, now + 120.0);
    }
  }

  // ---- every call ----

  lemma ActKeeps(s: State, now: real, later: real, action: Action, token: string, supply: Supply)
    requires Inv(s) && token in s.players && !action.Presence? && !action.Join? && supply.rid !in s.requests
    ensures Inv(Act(s, now, later, action, token, supply).0)
  {
    hide Inv, DoLeave, DoOffline, DoFriend, DoAvailable, DoChallenge, DoAccept;
    match action
    case Leave => LeaveKeeps(s, token);
    case Offline => OfflineKeeps(s, token, later);
    case Friend(what, other) => FriendKeeps(s, token, what, other);
    case Chat(text) => ChatKeeps(s, now, token, text);
    case Available => AvailableKeeps(s, token);
    case Challenge(target) => ChallengeKeeps(s, now, token, target, supply);
    case Cancel(rid) => FewerRequests(s, s.requests - {rid});
    case Accept(rid) => AcceptKeeps(s, now, token, rid);
    case Poll =>
    case Other(_) =>
  }

  lemma ChatKeeps(s: State, now: real, token: string, text: Option<string>)
    requires Inv(s) && token in s.players
    ensures Inv(DoChat(s, now, token, text).0)
  {
    hide FriendsOk, AccountsOk, Matching, SessionsOk;
    UpdateKeeps(s, token, s.players[token].(lastChat := now));
  }

  lemma UnusedAfterSweep(s: State, supply: Supply, now: real)
    requires Unused(s, supply)
    ensures Unused(Sweep(s, now), supply)
  {}

  /** Every call, accepted or refused, keeps the invariant. */
  lemma CallKeeps(s: State, swept: real, now: real, later: real, action: Action, token: string, ip: string,
      supply: Supply)
    requires Inv(s) && Unused(s, supply)
    ensures Inv(Call(s, swept, now, later, action, token, ip, supply).0)
  {
    hide Inv, Sweep, DoPresence, DoJoin, Act;
    InvSweeps(s, swept);
    UnusedAfterSweep(s, supply, swept);
    var s1 := Sweep(s, swept);
    if action.Presence? {
      PresenceKeeps(s1, now, token, action.status, action.stocks);
    } else if action.Join? {
      JoinKeeps(s1, now, token, ip, action.body, supply);
    } else if token in s1.players {
      UpdateKeeps(s1, token, s1.players[token].(seen := now));
      ActKeeps(Touch(s1, token, now), now, later, action, token, supply);
    }
  }

  /** The lookups of accept, poll and the friend actions always succeed: no call ends in Fail(500). */
  lemma LookupsSucceed(s: State, swept: real, now: real, later: real, action: Action, token: string, ip: string,
      supply: Supply)
    requires Inv(s)
    ensures Call(s, swept, now, later, action, token, ip, supply).1 != Fail(500)
  {
    hide Sweep, FriendsOk, AccountsOk, Befriend, DoPresence, DoJoin;
    InvSweeps(s, swept);
    var s1 := Sweep(s, swept);
    if action.Presence? || action.Join? {
      OpenCallsAnswer(s1, now, action, token, ip, supply);
    } else if token in s1.players {
      var s2 := Touch(s1, token, now);
      hide Inv;
      UpdateKeeps(s1, token, s1.players[token].(seen := now));
      ActAnswers(s2, now, later, action, token, supply);
    }
  }

  lemma OpenCallsAnswer(s: State, now: real, action: Action, token: string, ip: string, supply: Supply)
    requires action.Presence? || action.Join?
    ensures action.Presence? ==> DoPresence(s, now, token, action.status, action.stocks).1 != Fail(500)
    ensures action.Join? ==> DoJoin(s, now, token, ip, action.body, supply).1 != Fail(500)
  {}

  lemma ActAnswers(s: State, now: real, later: real, action: Action, token: string, supply: Supply)
    requires Inv(s) && token in s.players && !action.Presence? && !action.Join?
    ensures Act(s, now, later, action, token, supply).1 != Fail(500)
  {
    hide FriendsOk, AccountsOk, DoOffline;
    if action.Accept? && action.rid in s.requests {
      assert RequestOk(s.requests[action.rid], s.players);
    }
  }
}
