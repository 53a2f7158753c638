/**
  Who may do what in the lobby, and what it leaves behind: challenges, accepts, endings, friendships (lobby/server.py).
*/
module LobbyParties {
  import opened Bytes
  import opened LobbyState
  import opened LobbyInvariant
  import opened LobbyRuns

  /** The tables a call finds after its own sweep. */
  function Found(s: State, e: Event): State {
    Sweep(s, e.swept)
  }

  /** The caller has a session, and this is its id. */
  predicate CallerIs(s: State, e: Event, id: string) {
    e.token in s.players && s.players[e.token].profile.id == id
  }

  lemma FoundInv(s: State, e: Event)
    requires Inv(s)
    ensures Inv(Found(s, e)) && IdsUnique(Found(s, e).players)
  {
    hide Inv, Sweep, IdsUnique;
    InvSweeps(s, e.swept);
    SessionIdsHold(Found(s, e));
  }

  /**
    A sweep keeps exactly the sessions heard of in the last 20 seconds, and the requests that have time left and both
    players.
  */
  lemma SweepExactly(s: State, now: real, token: string, rid: string)
    ensures var s' := Sweep(s, now);
      && (token in s'.players <==> token in s.players && now <= s.players[token].seen + 20.0)
      && (token in s'.players ==> s'.players[token] == s.players[token])
      && (rid in s'.requests <==>
            rid in s.requests && now <= s.requests[rid].expires
            && s.requests[rid].sender in Ids(s'.players) && s.requests[rid].target in Ids(s'.players))
      && (rid in s'.requests ==> s'.requests[rid] == s.requests[rid])
      && s'.accounts == s.accounts && s'.messages == s.messages
  {}

  // ---- accepting ----

  /** The caller is the one invited, the request waits, and neither player is busy. */
  ghost predicate Acceptable(s: State, token: string, rid: string) {
    && rid in s.requests && !s.requests[rid].accepted
    && token in s.players && s.players[token].profile.id == s.requests[rid].target
    && (forall t :: t in s.players && s.requests[rid].Involves(s.players[t].profile.id) ==> !s.players[t].busy)
  }

  /** What an accept leaves: the request accepted and living on for two minutes, both players busy, and nothing else. */
  ghost predicate AcceptedNow(s: State, s': State, now: real, rid: string)
    requires rid in s.requests
  {
    var r := s.requests[rid];
    && s'.requests == s.requests[rid := Request(r.sender, r.target, true, now + 120.0)]
    && s'.accounts == s.accounts && s'.messages == s.messages
    && s'.players.Keys == s.players.Keys
    && (forall t :: t in s.players ==>
          s'.players[t].profile == s.players[t].profile
          && s'.players[t].busy == (s.players[t].busy || r.Involves(s.players[t].profile.id)))
  }

  lemma DoAcceptExactly(s: State, now: real, token: string, rid: string)
    requires Inv(s) && IdsUnique(s.players) && token in s.players
    ensures DoAccept(s, now, token, rid).1.Done? <==> Acceptable(s, token, rid)
    ensures DoAccept(s, now, token, rid).1.Done? ==> AcceptedNow(s, DoAccept(s, now, token, rid).0, now, rid)
  {
    hide Inv, TokenOf;
    if rid in s.requests {
      PartiesHere(s, rid);
      PeerIs(s.players, s.requests[rid].sender);
    }
  }

  /** Seeing a session now changes nothing that matters here. */
  lemma TouchSame(f: State, token: string, now: real, rid: string)
    requires Inv(f) && IdsUnique(f.players) && token in f.players
    ensures var g := Touch(f, token, now);
      && Inv(g) && IdsUnique(g.players) && g.players.Keys == f.players.Keys && g == f.(players := g.players)
      && (forall t :: t in f.players ==> g.players[t] == f.players[t].(seen := g.players[t].seen))
      && (Acceptable(g, token, rid) <==> Acceptable(f, token, rid))
  {
    hide Inv;
    UpdateKeeps(f, token, f.players[token].(seen := now));
  }

  /** Accept succeeds exactly for the invited player, while both are free. */
  lemma AcceptExactly(s: State, e: Event, rid: string)
    requires Inv(s) && e.action == Accept(rid)
    ensures Next(s, e).1.Done? <==> Acceptable(Found(s, e), e.token, rid)
    ensures Next(s, e).1.Done? ==> AcceptedNow(Found(s, e), Next(s, e).0, e.now, rid)
  {
    hide Sweep, Inv, IdsUnique, DoAccept, Touch;
    FoundInv(s, e);
    var f := Found(s, e);
    if e.token in f.players {
      TouchSame(f, e.token, e.now, rid);
      DoAcceptExactly(Touch(f, e.token, e.now), e.now, e.token, rid);
    }
  }

  lemma PartiesHere(s: State, rid: string)
    requires Inv(s) && rid in s.requests
    ensures s.requests[rid].sender in Ids(s.players) && s.requests[rid].target in Ids(s.players)
    ensures s.requests[rid].sender != s.requests[rid].target
  {
    assert RequestOk(s.requests[rid], s.players);
  }

  lemma PeerIs(players: map<string, Player>, id: string)
    ensures var r := TokenOf(players, id);
      && (r.Some? <==> id in Ids(players))
      && (r.Some? ==> r.value in players && players[r.value].profile.id == id)
  {}

  // ---- challenging ----

  /** The session `u` of the player named may be challenged by the caller. */
  ghost predicate Challengeable(s: State, now: real, token: string, target: string, u: string) {
    && token in s.players && u in s.players && u != token && s.players[u].profile.id == target
    && var (p, q) := (s.players[token], s.players[u]);
       && p.visible && q.visible && !p.busy && !q.busy && p.ready && q.ready && p.profile.build == q.profile.build
       && now >= p.lastRequest + 3.0
       && forall r :: r in s.requests ==> !s.requests[r].Involves(p.profile.id) && !s.requests[r].Involves(q.profile.id)
  }

  /** What a challenge leaves: one more pending request, from the caller to the player named, good for 30 seconds. */
  ghost predicate ChallengedNow(s: State, s': State, now: real, token: string, target: string, rid: string) {
    && token in s.players
    && s'.requests == s.requests[rid := Request(s.players[token].profile.id, target, false, now + 30.0)]
    && s'.accounts == s.accounts && s'.messages == s.messages && s'.players.Keys == s.players.Keys
    && forall t :: t in s.players ==>
         s'.players[t].profile == s.players[t].profile && s'.players[t].busy == s.players[t].busy
  }

  lemma DoChallengeExactly(s: State, now: real, token: string, target: string, supply: Supply)
    requires IdsUnique(s.players) && token in s.players
    ensures var (s', answer) := DoChallenge(s, now, token, target, supply);
      && (answer.Requested? <==> exists u :: Challengeable(s, now, token, target, u))
      && (answer.Requested? ==> answer == Requested(supply.rid) && ChallengedNow(s, s', now, token, target, supply.rid))
  {
    hide TokenOf;
    PeerIs(s.players, target);
    var found := TokenOf(s.players, target);
    if found.Some? && DoChallenge(s, now, token, target, supply).1.Requested? {
      assert Challengeable(s, now, token, target, found.value);
    }
  }

  lemma TouchChallenge(f: State, token: string, now: real, target: string, u: string)
    requires token in f.players
    ensures Challengeable(Touch(f, token, now), now, token, target, u) <==> Challengeable(f, now, token, target, u)
  {}

  /**
    A challenge succeeds exactly between two free, ready, visible players with one build and no request of theirs, at
    most once in three seconds.
  */
  lemma ChallengeExactly(s: State, e: Event, target: string)
    requires Inv(s) && e.action == Challenge(target)
    ensures Next(s, e).1.Requested? <==> exists u :: Challengeable(Found(s, e), e.now, e.token, target, u)
    ensures Next(s, e).1.Requested? ==>
      && Next(s, e).1 == Requested(e.supply.rid)
      && ChallengedNow(Found(s, e), Next(s, e).0, e.now, e.token, target, e.supply.rid)
  {
    hide Sweep, Inv, IdsUnique, DoChallenge, Touch, Challengeable;
    FoundInv(s, e);
    var f := Found(s, e);
    if e.token in f.players {
      var g := Touch(f, e.token, e.now);
      TouchSame(f, e.token, e.now, "");
      DoChallengeExactly(g, e.now, e.token, target, e.supply);
      forall u
        ensures Challengeable(g, e.now, e.token, target, u) <==> Challengeable(f, e.now, e.token, target, u)
      {
        TouchChallenge(f, e.token, e.now, target, u);
      }
    } else {
      NobodyChallenges(f, e, target);
    }
  }

  lemma NobodyChallenges(f: State, e: Event, target: string)
    requires e.token !in f.players
    ensures forall u :: !Challengeable(f, e.now, e.token, target, u)
  {}

  // ---- cancelling ----

  /** Either player may cancel, while the request waits; it is gone and all else stays. */
  lemma CancelExactly(s: State, e: Event, rid: string)
    requires e.action == Cancel(rid)
    ensures var (f, s', answer) := (Found(s, e), Next(s, e).0, Next(s, e).1);
      && (answer.Done? <==>
            e.token in f.players && rid in f.requests && !f.requests[rid].accepted
            && f.requests[rid].Involves(f.players[e.token].profile.id))
      && (answer.Done? ==> s'.requests == f.requests - {rid})
      && (!answer.Done? ==> s'.requests == f.requests)
      && s'.accounts == f.accounts && s'.messages == f.messages && s'.players.Keys == f.players.Keys
  {
    hide Sweep;
  }

  // ---- chat ----

  /** A message is kept exactly from a visible player with a text, at most one a second; it is the last one. */
  lemma ChatExactly(s: State, e: Event, text: Option<string>)
    requires e.action == Chat(text)
    ensures var (f, s', answer) := (Found(s, e), Next(s, e).0, Next(s, e).1);
      && (answer.Done? <==>
            && e.token in f.players && f.players[e.token].visible && text.Some?
            && e.now >= f.players[e.token].lastChat + 1.0)
      && (answer.Done? ==>
            && s'.messages != []
            && s'.messages[|s'.messages| - 1] == Message(f.players[e.token].profile.id, text.value, e.now)
            && s'.players[e.token].lastChat == e.now)
      && (!answer.Done? ==> s'.messages == f.messages)
      && s'.accounts == f.accounts && s'.requests == f.requests && s'.players.Keys == f.players.Keys
  {
    hide Sweep;
  }

  // ---- one call, any request ----

  /** A request changes only when the player it invites accepts it. */
  ghost predicate SameOrAccepted(f: State, s': State, e: Event, answer: Response, rid: string)
    requires rid in s'.requests
  {
    && rid in f.requests
    && (s'.requests[rid] == f.requests[rid]
        || (e.action == Accept(rid) && answer.Done? && CallerIs(f, e, f.requests[rid].target)
            && s'.requests[rid] == f.requests[rid].(accepted := true, expires := e.now + 120.0)))
  }

  /** Whether a caller may end a request: it is one of the two, and asks for it in one of four ways. */
  predicate EndsIt(f: State, e: Event, rid: string)
    requires rid in f.requests
  {
    var r := f.requests[rid];
    || e.action.Offline?
    || (e.token in f.players && r.Involves(f.players[e.token].profile.id)
        && (e.action.Available? || (!r.accepted && (e.action.Leave? || e.action == Cancel(rid)))))
  }

  lemma OneRequest(s: State, e: Event, rid: string)
    requires Inv(s)
    ensures var (f, s', answer) := (Found(s, e), Next(s, e).0, Next(s, e).1);
      && (rid in s'.requests && answer != Requested(rid) ==> SameOrAccepted(f, s', e, answer, rid))
      && (rid in f.requests && rid !in s'.requests ==> EndsIt(f, e, rid))
  {
    hide Sweep, Inv, Befriend, JoinTimes, Admits, CodeTaken, NewSession;
    var f := Found(s, e);
    match e.action
    case Accept(other) => AcceptExactly(s, e, other);
    case Challenge(target) => ChallengeExactly(s, e, target);
    case Friend(what, other) =>
      if e.token in f.players {
        FriendFrame(Touch(f, e.token, e.now), e.token, what, other);
      }
    case Offline =>
      if e.token in f.players {
        var t := Touch(f, e.token, e.now);
        OfflineSweeps(t, e.token, e.later);
        SweepExactly(t.(players := t.players - {e.token}), e.later, e.token, rid);
      }
    case _ =>
  }

  /** A session that was heard of within 20 seconds stays, unless it goes offline itself. */
  lemma SessionLives(s: State, e: Event, token: string)
    requires token in s.players && e.swept <= e.now <= e.later
    requires e.later <= s.players[token].seen + 20.0
    requires !(e.action.Offline? && e.token == token)
    ensures token in Next(s, e).0.players
  {
    hide Sweep, Befriend, JoinTimes, Admits, CodeTaken, TokenOf, AccountOf;
    SweepExactly(s, e.swept, token, "");
    var f := Found(s, e);
    match e.action
    case Friend(what, other) =>
      if e.token in f.players {
        FriendFrame(Touch(f, e.token, e.now), e.token, what, other);
      }
    case Offline =>
      if e.token in f.players {
        var t := Touch(f, e.token, e.now);
        OfflineSweeps(t, e.token, e.later);
        SweepExactly(t.(players := t.players - {e.token}), e.later, token, "");
      }
    case _ =>
  }

  // ---- over runs ----

  /** The answer to call `k` of a run. */
  ghost function Answer(s: State, events: seq<Event>, k: nat): Response
    requires k < |events|
  {
    Next(After(s, events[..k]), events[k]).1
  }

  /** The tables call `k` finds. */
  ghost function FoundAt(s: State, events: seq<Event>, k: nat): State
    requires k < |events|
  {
    Found(After(s, events[..k]), events[k])
  }

  lemma {:induction false} PrefixRuns(start: real, s: State, events: seq<Event>, n: nat)
    requires Runs(start, s, events) && n <= |events|
    ensures Runs(start, s, events[..n])
  {
    hide After, Unused;
    if n < |events| {
      var front := events[..|events| - 1];
      PrefixRuns(start, s, front, n);
      assert front[..n] == events[..n];
    } else {
      assert events[..n] == events;
    }
  }

  lemma AfterOne(s: State, events: seq<Event>, n: nat)
    requires n < |events|
    ensures After(s, events[..n + 1]) == Next(After(s, events[..n]), events[n]).0
  {
    hide Next;
    assert events[..n + 1][..n] == events[..n] && events[..n + 1][n] == events[n];
  }

  /** Call `k` is a challenge that was given the request `rid`, and none after it up to `n` was given the same. */
  ghost predicate Challenged(s: State, events: seq<Event>, k: nat, n: nat, rid: string)
    requires k < n <= |events|
  {
    && events[k].action.Challenge? && Answer(s, events, k) == Requested(rid)
    && forall j :: k < j < n ==> Answer(s, events, j) != Requested(rid)
  }

  /** As long as a request is there, it is the one the challenge made: from its caller, to the player it named. */
  lemma {:induction false} RequestRemembered(start: real, s: State, events: seq<Event>, k: nat, n: nat, rid: string)
    requires Started(s) && Runs(start, s, events) && k < n <= |events| && Challenged(s, events, k, n, rid)
    requires rid in After(s, events[..n]).requests
    ensures var r := After(s, events[..n]).requests[rid];
      && r.target == events[k].action.target
      && CallerIs(FoundAt(s, events, k), events[k], r.sender)
  {
    hide Started, Runs, After, Sweep, Inv, Next;
    PrefixRuns(start, s, events, n - 1);
    InvariantAlways(start, s, events[..n - 1]);
    var before, e := After(s, events[..n - 1]), events[n - 1];
    AfterOne(s, events, n - 1);
    if n - 1 == k {
      ChallengeExactly(before, e, e.action.target);
    } else {
      assert Answer(s, events, n - 1) != Requested(rid);
      OneRequest(before, e, rid);
      assert SameOrAccepted(Found(before, e), After(s, events[..n]), e, Next(before, e).1, rid);
      SweepExactly(before, e.swept, "", rid);
      assert rid in before.requests;
      RequestRemembered(start, s, events, k, n - 1, rid);
    }
  }

  /**
    Only the invited player accepts. On every run: if a challenge was given the request `rid`, and no other challenge
    the same one since, any later accept of it that succeeds comes from the session of the player the challenge named,
    and it makes that player and the challenger busy.
  */
  lemma OnlyTheInvitedAccepts(start: real, s: State, events: seq<Event>, k: nat, n: nat, rid: string)
    requires Started(s) && Runs(start, s, events) && k < n < |events| && Challenged(s, events, k, n, rid)
    requires events[n].action == Accept(rid) && Answer(s, events, n).Done?
    ensures CallerIs(FoundAt(s, events, n), events[n], events[k].action.target)
    ensures var (f, s') := (FoundAt(s, events, n), After(s, events[..n + 1]));
      && rid in f.requests && CallerIs(FoundAt(s, events, k), events[k], f.requests[rid].sender)
      && f.requests[rid].target == events[k].action.target
      && AcceptedNow(f, s', events[n].now, rid)
  {
    hide Started, Runs, After, Sweep, Inv, Next, AcceptedNow;
    PrefixRuns(start, s, events, n);
    InvariantAlways(start, s, events[..n]);
    var before, e := After(s, events[..n]), events[n];
    AcceptExactly(before, e, rid);
    AfterOne(s, events, n);
    SweepExactly(before, e.swept, "", rid);
    RequestRemembered(start, s, events, k, n, rid);
  }

  // ---- friends ----

  lemma AskExactly(me: Account, other: Account)
    requires AccountOk(me) && AccountOk(other) && me.profile.id != other.profile.id
    ensures var (a, b, r) := Befriend(me, other, Ask);
      && a == me && b.friends == other.friends
      && (forall x ::
            x in b.incoming <==>
            x in other.incoming || (x == me.profile.id && r.Done? && other.profile.id !in me.friends))
      && (r.Done? <==> other.profile.id in me.friends || (|other.incoming| < 100 && |me.friends| < 100))
  {
    AddedNew(other.incoming, me.profile.id);
  }

  lemma AcceptFriendExactly(me: Account, other: Account)
    requires AccountOk(me) && AccountOk(other) && me.profile.id != other.profile.id
    ensures var (a, b, r) := Befriend(me, other, AcceptFriend);
      && (r.Done? <==> other.profile.id in me.incoming)
      && (!r.Done? ==> a == me && b == other)
      && (r.Done? ==>
            && (forall x :: x in a.friends <==> x in me.friends || x == other.profile.id)
            && (forall x :: x in b.friends <==> x in other.friends || x == me.profile.id)
            && (forall x :: x in a.incoming <==> x in me.incoming && x != other.profile.id)
            && (forall x :: x in b.incoming <==> x in other.incoming && x != me.profile.id))
  {
    AddedNew(me.friends, other.profile.id);
    AddedNew(other.friends, me.profile.id);
    RemovedFirst(me.incoming, other.profile.id);
    RemovedFirst(other.incoming, me.profile.id);
  }

  lemma EndFriendExactly(me: Account, other: Account)
    requires AccountOk(me) && AccountOk(other) && me.profile.id != other.profile.id
    ensures var (a, b, r) := Befriend(me, other, Decline);
      && (r.Done? <==> other.profile.id in me.incoming) && a.friends == me.friends && b == other
      && (forall x :: x in a.incoming <==> x in me.incoming && !(r.Done? && x == other.profile.id))
    ensures var (a, b, r) := Befriend(me, other, Unfriend);
      && r.Done? && a.incoming == me.incoming && b.incoming == other.incoming
      && (forall x :: x in a.friends <==> x in me.friends && x != other.profile.id)
      && (forall x :: x in b.friends <==> x in other.friends && x != me.profile.id)
  {
    RemovedFirst(me.incoming, other.profile.id);
    RemovedAll(me.friends, other.profile.id);
    RemovedAll(other.friends, me.profile.id);
  }

  /** Who became friends, and who was asked, by one call. */
  ghost predicate NewFriend(s: State, s': State, t: string, id: string)
    requires t in s.accounts && t in s'.accounts
  {
    id in s'.accounts[t].friends && id !in s.accounts[t].friends
  }

  ghost predicate NewIncoming(s: State, s': State, t: string, id: string)
    requires t in s.accounts && t in s'.accounts
  {
    id in s'.accounts[t].incoming && id !in s.accounts[t].incoming
  }

  /** The call is this friend action, by the owner of `t` towards the player `id`. */
  predicate Does(e: Event, what: FriendAction, t: string, id: string) {
    e.action == Friend(what, id) && e.token == t
  }

  lemma FriendCall(s: State, token: string, what: FriendAction, target: string, t: string, u: string)
    requires Inv(s) && token in s.players && t in s.accounts && u in s.accounts && t != u
    ensures var (s', a, b) := (DoFriend(s, token, what, target).0, s.accounts[t].profile.id, s.accounts[u].profile.id);
      && t in s'.accounts && u in s'.accounts
      && (NewFriend(s, s', t, b) ==>
            what.AcceptFriend?
            && ((token == t && target == b && b in s.accounts[t].incoming)
                || (token == u && target == a && a in s.accounts[u].incoming)))
      && (NewIncoming(s, s', u, a) ==> what.Ask? && token == t && target == b)
  {
    hide Befriend, AccountOf, Matching, FriendsOk, AccountsOk;
    SessionFact(s.players, s.accounts, token);
    AccountFound(s.accounts, target);
    var found := AccountOf(s.accounts, target);
    if found.Some? && target != s.players[token].profile.id {
      FriendsFact(s.accounts, token);
      FriendsFact(s.accounts, found.value);
      OwnIds(s.accounts, t, token);
      OwnIds(s.accounts, u, token);
      OwnIds(s.accounts, t, found.value);
      OwnIds(s.accounts, u, found.value);
      var me, them := s.accounts[token], s.accounts[found.value];
      match what
      case Ask => AskExactly(me, them);
      case AcceptFriend =>
        AcceptFriendExactly(me, them);
        MutualFact(s.accounts, t, u);
      case _ => EndFriendExactly(me, them);
    }
  }

  lemma OwnIds(accounts: map<string, Account>, t: string, u: string)
    requires AccountsOk(accounts) && t in accounts && u in accounts
    ensures accounts[t].profile.id == accounts[u].profile.id <==> t == u
  {}

  /** No account's friends or incoming requests change but by a friend action. */
  ghost predicate SameTies(s: State, s': State, t: string) {
    t in s.accounts ==>
      t in s'.accounts && s'.accounts[t].friends == s.accounts[t].friends
        && s'.accounts[t].incoming == s.accounts[t].incoming
  }

  lemma OpenTies(s: State, e: Event, t: string)
    requires e.action.Presence? || e.action.Join?
    requires e.supply.token !in s.accounts
    ensures SameTies(s, Next(s, e).0, t)
  {
    hide Sweep, Committed, JoinTimes, Admits, CodeTaken, NewSession;
    SweepExactly(s, e.swept, "", "");
  }

  lemma SessionTies(s: State, e: Event, t: string)
    requires !e.action.Presence? && !e.action.Join? && !e.action.Friend?
    ensures SameTies(s, Next(s, e).0, t)
  {
    hide Sweep, TokenOf, Engaged;
    SweepExactly(s, e.swept, "", "");
    var f := Found(s, e);
    if e.action.Offline? && e.token in f.players {
      var g := Touch(f, e.token, e.now);
      OfflineSweeps(g, e.token, e.later);
      SweepExactly(g.(players := g.players - {e.token}), e.later, "", "");
    }
  }

  /**
    Friendship needs both: it begins only when one of the two accepts what the other asked, and a request comes in only
    when its sender asks.
  */
  lemma FriendshipNeedsBoth(s: State, e: Event, t: string, u: string)
    requires Inv(s) && Unused(s, e.supply) && t in s.accounts && u in s.accounts && t != u
    ensures t in Next(s, e).0.accounts && u in Next(s, e).0.accounts
    ensures NewFriend(s, Next(s, e).0, t, s.accounts[u].profile.id) ==>
      var (a, b) := (s.accounts[t].profile.id, s.accounts[u].profile.id);
      || (Does(e, AcceptFriend, t, b) && b in s.accounts[t].incoming)
      || (Does(e, AcceptFriend, u, a) && a in s.accounts[u].incoming)
    ensures NewIncoming(s, Next(s, e).0, u, s.accounts[t].profile.id) ==> Does(e, Ask, t, s.accounts[u].profile.id)
  {
    hide Sweep, Inv, DoFriend, Next, Touch;
    if e.action.Friend? {
      SweepExactly(s, e.swept, e.token, "");
      FoundInv(s, e);
      FriendNext(s, e);
      var f := Found(s, e);
      if e.token in f.players {
        var g := Touch(f, e.token, e.now);
        TouchSame(f, e.token, e.now, "");
        FriendCall(g, e.token, e.action.what, e.action.other, t, u);
      }
    } else if e.action.Presence? || e.action.Join? {
      OpenTies(s, e, t);
      OpenTies(s, e, u);
    } else {
      SessionTies(s, e, t);
      SessionTies(s, e, u);
    }
  }

  lemma FriendNext(s: State, e: Event)
    requires e.action.Friend?
    ensures var f := Found(s, e);
      Next(s, e).0 ==
        if e.token in f.players then DoFriend(Touch(f, e.token, e.now), e.token, e.action.what, e.action.other).0 else f
  {
    hide Sweep, DoFriend;
  }
}
