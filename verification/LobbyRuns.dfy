/** Whole runs of the lobby with a clock that never goes back. */
module LobbyRuns {
  import opened LobbyState
  import opened LobbyInvariant

  /** One call: its arguments, the clock readings it sees, and what it would hand out. */
  datatype Event = Event(action: Action, token: string, ip: string, swept: real, now: real, later: real, supply: Supply)

  ghost function Next(s: State, e: Event): (State, Response) {
    Call(s, e.swept, e.now, e.later, e.action, e.token, e.ip, e.supply)
  }

  ghost function After(s: State, events: seq<Event>): State {
    if events == [] then s
    else Next(After(s, events[..|events| - 1]), events[|events| - 1]).0
  }

  function Clock(start: real, events: seq<Event>): real {
    if events == [] then start else events[|events| - 1].later
  }

  /** The clock never goes back, and every call is handed unused ids. */
  ghost predicate Runs(start: real, s: State, events: seq<Event>) {
    events == [] ||
    var (front, e) := (events[..|events| - 1], events[|events| - 1]);
    && Runs(start, s, front)
    && Clock(start, front) <= e.swept <= e.now <= e.later
    && Unused(After(s, front), e.supply)
  }

  /** A lobby that just started: accounts from the database, nobody online. */
  ghost predicate Started(s: State) {
    AccountsOk(s.accounts) && FriendsOk(s.accounts) && s.players == map[] && s.requests == map[] && s.joins == map[]
      && s.messages == []
  }

  /** After every call of every run, refused calls included, the invariant holds. */
  lemma {:induction false} InvariantAlways(start: real, s: State, events: seq<Event>)
    requires Started(s) && Runs(start, s, events)
    ensures Inv(After(s, events))
  {
    hide FriendsOk, AccountsOk, Call, Unused;
    if events != [] {
      var e := events[|events| - 1];
      InvariantAlways(start, s, events[..|events| - 1]);
      hide Inv;
      CallKeeps(After(s, events[..|events| - 1]), e.swept, e.now, e.later, e.action, e.token, e.ip, e.supply);
    }
  }

  /** No call of any run looks up a player or account that is not there. */
  lemma LookupsAlwaysSucceed(start: real, s: State, events: seq<Event>, e: Event)
    requires Started(s) && Runs(start, s, events)
    ensures Next(After(s, events), e).1 != Fail(500)
  {
    hide Started, Runs, Call, Inv;
    InvariantAlways(start, s, events);
    LookupsSucceed(After(s, events), e.swept, e.now, e.later, e.action, e.token, e.ip, e.supply);
  }

  // ---- silent sessions and old requests ----

  lemma SweptIsCurrent(s: State, now: real)
    ensures forall t :: t in Sweep(s, now).players ==> now - Sweep(s, now).players[t].seen <= LIFETIME
    ensures forall r :: r in Sweep(s, now).requests ==> Sweep(s, now).requests[r].expires >= now
  {}

  /** Sessions seen within the last 20 seconds of `now`, and requests that have not expired. */
  ghost predicate Current(s: State, now: real) {
    && (forall t :: t in s.players ==> now - s.players[t].seen <= LIFETIME)
    && (forall r :: r in s.requests ==> s.requests[r].expires >= now)
  }

  lemma ActStaysCurrent(s: State, swept: real, now: real, later: real, action: Action, token: string, supply: Supply)
    requires Current(s, swept) && token in s.players && s.players[token].seen == now && swept <= now <= later
    requires !action.Presence? && !action.Join?
    ensures Current(Act(s, now, later, action, token, supply).0, swept)
  {
    hide Befriend, AccountOf, Engaged, Sweep, DoFriend, DoOffline;
    match action
    case Offline =>
      SweptIsCurrent(s.(players := s.players - {token}), later);
      OfflineSweeps(s, token, later);
    case Friend(what, other) => FriendFrame(s, token, what, other);
    case _ =>
  }

  lemma OfflineSweeps(s: State, token: string, later: real)
    ensures DoOffline(s, token, later) == Sweep(s.(players := s.players - {token}), later)
  {}

  lemma FriendFrame(s: State, token: string, what: FriendAction, target: string)
    requires token in s.players
    ensures var s' := DoFriend(s, token, what, target).0;
      s'.players == s.players && s'.requests == s.requests && s'.joins == s.joins
  {
    hide Befriend, AccountOf;
  }

  /** After a call no session that was silent for 20 seconds at its sweep, and no request expired by then, is left. */
  lemma CurrentAfterCall(s: State, e: Event)
    requires e.swept <= e.now <= e.later
    ensures Current(Next(s, e).0, e.swept)
  {
    var s1 := Sweep(s, e.swept);
    SweptIsCurrent(s, e.swept);
    hide Sweep, Act, Committed, JoinTimes, Admits;
    if e.token in s1.players && !e.action.Presence? && !e.action.Join? {
      ActStaysCurrent(Touch(s1, e.token, e.now), e.swept, e.now, e.later, e.action, e.token, e.supply);
    }
  }

  // ---- the join limiter ----

  /** When joins from `ip` were let through the limiter, oldest first. */
  ghost function Admitted(s: State, events: seq<Event>, ip: string): seq<real> {
    if events == [] then []
    else
      var front, e := events[..|events| - 1], events[|events| - 1];
      var before := Sweep(After(s, front), e.swept);
      Admitted(s, front, ip) + (if e.action.Join? && e.ip == ip && Admits(before, ip, e.now) then [e.now] else [])
  }

  predicate Ascending(times: seq<real>) {
    forall i, j :: 0 <= i < j < |times| ==> times[i] <= times[j]
  }

  function Listed(joins: map<string, seq<real>>, ip: string): seq<real> {
    if ip in joins then joins[ip] else []
  }

  /** The lobby remembers a suffix of the admitted joins, and what it forgot is a window old. */
  predicate Remembers(log: seq<real>, listed: seq<real>, clock: real) {
    && Ascending(log)
    && (forall i :: 0 <= i < |log| ==> log[i] <= clock)
    && |listed| <= |log| && listed == log[|log| - |listed|..]
    && forall i :: 0 <= i < |log| - |listed| ==> clock - log[i] >= WINDOW
  }

  /** Of any eleven admitted joins in a row, the last is a window after the first. */
  predicate Spaced(log: seq<real>) {
    forall i, j :: 0 <= i && i + 10 <= j < |log| ==> log[j] - log[i] >= WINDOW
  }

  lemma {:induction false} RecentIsSuffix(times: seq<real>, now: real)
    requires Ascending(times)
    ensures |Recent(times, now)| <= |times|
    ensures Recent(times, now) == times[|times| - |Recent(times, now)|..]
    ensures forall i :: 0 <= i < |times| - |Recent(times, now)| ==> now - times[i] >= WINDOW
  {
    if times != [] {
      RecentIsSuffix(times[1..], now);
      if now - times[0] < WINDOW {
        AllRecent(times, now);
      } else {
        var r := Recent(times[1..], now);
        assert times[1..][|times[1..]| - |r|..] == times[|times| - |r|..];
        forall i | 0 <= i < |times| - |r|
          ensures now - times[i] >= WINDOW
        {
          assert i > 0 ==> times[i] == times[1..][i - 1];
        }
      }
    }
  }

  lemma {:induction false} AllRecent(times: seq<real>, now: real)
    requires Ascending(times) && (times != [] ==> now - times[0] < WINDOW)
    ensures Recent(times, now) == times
  {
    if times != [] {
      AllRecent(times[1..], now);
    }
  }

  lemma RemembersShorter(log: seq<real>, listed: seq<real>, clock: real, kept: seq<real>, now: real)
    requires Remembers(log, listed, clock) && clock <= now
    requires |kept| <= |listed| && kept == listed[|listed| - |kept|..]
    requires forall i :: 0 <= i < |listed| - |kept| ==> now - listed[i] >= WINDOW
    ensures Remembers(log, kept, now)
  {
    var n, l, k := |log|, |listed|, |kept|;
    forall i | 0 <= i < n - k
      ensures now - log[i] >= WINDOW
    {
      if i >= n - l {
        assert log[i] == listed[i - (n - l)];
      }
    }
    assert log[n - l..][l - k..] == log[n - k..];
  }

  lemma SweepRemembers(s: State, log: seq<real>, ip: string, clock: real, now: real)
    requires Remembers(log, Listed(s.joins, ip), clock) && clock <= now
    ensures Remembers(log, Listed(Sweep(s, now).joins, ip), now)
  {
    var listed := Listed(s.joins, ip);
    var kept := Listed(Sweep(s, now).joins, ip);
    assert kept == listed || (kept == [] && (listed != [] ==> now - listed[|listed| - 1] >= WINDOW));
    assert listed == log[|log| - |listed|..];
    assert Ascending(listed);
    hide Sweep;
    RemembersShorter(log, listed, clock, kept, now);
  }

  lemma SpacedAppend(log: seq<real>, now: real, k: nat)
    requires Spaced(log) && k < 10 && k <= |log|
    requires forall i :: 0 <= i < |log| - k ==> now - log[i] >= WINDOW
    ensures Spaced(log + [now])
  {
    var all := log + [now];
    forall i, j | 0 <= i && i + 10 <= j < |all|
      ensures all[j] - all[i] >= WINDOW
    {
      assert all[i] == log[i];
      if j < |log| {
        assert all[j] == log[j];
      }
    }
  }

  lemma RemembersAppend(log: seq<real>, listed: seq<real>, now: real)
    requires Remembers(log, listed, now)
    ensures Remembers(log + [now], listed + [now], now)
  {
    var n, k := |log|, |listed|;
    assert (log + [now])[n + 1 - (k + 1)..] == log[n - k..] + [now];
  }

  lemma ListedAscends(log: seq<real>, listed: seq<real>, now: real)
    requires Remembers(log, listed, now)
    ensures Ascending(listed)
  {
    assert listed == log[|log| - |listed|..];
  }

  /** One more admitted join: at most nine remembered ones are inside its window. */
  lemma AdmitSpaces(log: seq<real>, listed: seq<real>, now: real)
    requires Remembers(log, listed, now) && Spaced(log)
    ensures Remembers(log, Recent(listed, now), now)
    ensures |Recent(listed, now)| < 10 ==>
      Remembers(log + [now], Recent(listed, now) + [now], now) && Spaced(log + [now])
  {
    hide Spaced, Ascending, Recent;
    ListedAscends(log, listed, now);
    RecentIsSuffix(listed, now);
    var recent := Recent(listed, now);
    RemembersShorter(log, listed, now, recent, now);
    if |recent| < 10 {
      SpacedAppend(log, now, |recent|);
      hide Remembers;
      RemembersAppend(log, recent, now);
    }
  }

  lemma ActJoins(s: State, now: real, later: real, action: Action, token: string, supply: Supply)
    requires token in s.players && !action.Presence? && !action.Join?
    ensures Act(s, now, later, action, token, supply).0.joins == if action.Offline? then Sweep(s, later).joins
      else s.joins
  {
    hide TokenOf, Engaged, Sweep, DoFriend, DoOffline;
    match action
    case Offline =>
      OfflineSweeps(s, token, later);
      SweepJoins(s.(players := s.players - {token}), s, later);
    case Friend(what, other) => FriendFrame(s, token, what, other);
    case _ =>
  }

  /** Only joins and sweeps touch the join lists. */
  lemma JoinsAfterCall(s: State, e: Event, ip: string)
    ensures var before, s' := Sweep(s, e.swept), Next(s, e).0;
      Listed(s'.joins, ip) ==
        if e.action.Join? && e.ip == ip && Admits(before, ip, e.now) then
          Recent(Listed(before.joins, ip), e.now) + [e.now]
        else if e.action.Offline? && e.token in before.players then Listed(Sweep(before, e.later).joins, ip)
        else Listed(before.joins, ip)
  {
    hide Sweep, Act, Committed;
    var before := Sweep(s, e.swept);
    if e.token in before.players && !e.action.Presence? && !e.action.Join? {
      var t := Touch(before, e.token, e.now);
      ActJoins(t, e.now, e.later, e.action, e.token, e.supply);
      SweepJoins(t, before, e.later);
    }
  }

  lemma SweepJoins(s: State, t: State, now: real)
    requires s.joins == t.joins
    ensures Sweep(s, now).joins == Sweep(t, now).joins
  {}

  lemma {:induction false} RunRemembers(start: real, s: State, events: seq<Event>, ip: string)
    requires Started(s) && Runs(start, s, events)
    ensures Remembers(Admitted(s, events, ip), Listed(After(s, events).joins, ip), Clock(start, events))
    ensures Spaced(Admitted(s, events, ip))
  {
    hide Started, Sweep, Call, Unused, Remembers, Spaced, Recent;
    if events == [] {
      StartRemembers(start, s, ip);
    } else {
      var front, e := events[..|events| - 1], events[|events| - 1];
      RunRemembers(start, s, front, ip);
      var s1, log := After(s, front), Admitted(s, front, ip);
      var before := Sweep(s1, e.swept);
      SweepRemembers(s1, log, ip, Clock(start, front), e.swept);
      Later(log, Listed(before.joins, ip), e.swept, e.now);
      JoinsAfterCall(s1, e, ip);
      AdmitSpaces(log, Listed(before.joins, ip), e.now);
      SweepRemembers(before, log, ip, e.now, e.later);
      var s2, log2 := After(s, events), Admitted(s, events, ip);
      if e.action.Join? && e.ip == ip && Admits(before, ip, e.now) {
        JoinTimesListed(before, ip, e.now);
        Later(log2, Listed(s2.joins, ip), e.now, e.later);
      } else {
        assert log2 == log;
        if !(e.action.Offline? && e.token in before.players) {
          Later(log, Listed(s2.joins, ip), e.now, e.later);
        }
      }
    }
  }

  lemma JoinTimesListed(s: State, ip: string, now: real)
    ensures JoinTimes(s, ip, now) == Recent(Listed(s.joins, ip), now)
  {}

  lemma Later(log: seq<real>, listed: seq<real>, now: real, later: real)
    requires Remembers(log, listed, now) && now <= later
    ensures Remembers(log, listed, later)
  {}

  lemma StartRemembers(start: real, s: State, ip: string)
    requires Started(s)
    ensures Remembers([], Listed(s.joins, ip), start) && Spaced([])
  {}

  /** How many of the times are less than a minute old. */
  function Within(times: seq<real>, now: real): nat {
    if times == [] then 0 else (if now - times[0] < WINDOW then 1 else 0) + Within(times[1..], now)
  }

  lemma {:induction false} RecentCounts(times: seq<real>, now: real)
    ensures |Recent(times, now)| == Within(times, now)
  {
    if times != [] {
      RecentCounts(times[1..], now);
    }
  }

  lemma {:induction false} OldDoNotCount(times: seq<real>, k: nat, now: real)
    requires k <= |times| && forall i :: 0 <= i < k ==> now - times[i] >= WINDOW
    ensures Within(times, now) == Within(times[k..], now)
  {
    if k > 0 {
      OldDoNotCount(times[1..], k - 1, now);
      assert times[1..][k - 1..] == times[k..];
    } else {
      assert times[0..] == times;
    }
  }

  /**
    Exactly when a join is let through: on every run, when fewer than ten from its address have been in the last minute
    and fewer than 256 players are online, although sweeps have forgotten some of them.
  */
  lemma AdmitsExactly(start: real, s: State, events: seq<Event>, ip: string, swept: real, now: real)
    requires Started(s) && Runs(start, s, events) && Clock(start, events) <= swept <= now
    ensures var f := Sweep(After(s, events), swept);
      Admits(f, ip, now) <==> Within(Admitted(s, events, ip), now) < 10 && |f.players| < 256
  {
    hide Started, Runs, After, Admitted, Sweep, Recent, Within, Ascending;
    RunRemembers(start, s, events, ip);
    var log := Admitted(s, events, ip);
    var f := Sweep(After(s, events), swept);
    SweepRemembers(After(s, events), log, ip, Clock(start, events), swept);
    var listed := Listed(f.joins, ip);
    JoinTimesListed(f, ip, now);
    RecentCounts(listed, now);
    OldDoNotCount(log, |log| - |listed|, now);
  }

  /** How many of the times lie in [from, from + 60). */
  function CountIn(times: seq<real>, from: real): nat {
    if times == [] then 0
    else CountIn(times[..|times| - 1], from) + (if from <= times[|times| - 1] < from + WINDOW then 1 else 0)
  }

  /** The times counted are consecutive: if the last one counts, the first of them is `count - 1` places before. */
  lemma {:induction false} CountedTogether(times: seq<real>, from: real)
    requires Ascending(times) && times != [] && times[|times| - 1] < from + WINDOW && CountIn(times, from) > 0
    ensures CountIn(times, from) <= |times| && times[|times| - CountIn(times, from)] >= from
  {
    var front := times[..|times| - 1];
    if times[|times| - 1] < from {
      NoneBefore(front, from);
    } else if CountIn(front, from) > 0 {
      assert front != [];
      CountedTogether(front, from);
    }
  }

  lemma {:induction false} NoneBefore(times: seq<real>, from: real)
    requires forall i :: 0 <= i < |times| ==> times[i] < from
    ensures CountIn(times, from) == 0
  {
    if times != [] {
      NoneBefore(times[..|times| - 1], from);
    }
  }

  lemma {:induction false} SpacedCounts(times: seq<real>, from: real)
    requires Ascending(times) && Spaced(times)
    ensures CountIn(times, from) <= 10
  {
    if times != [] {
      var n := |times|;
      if times[n - 1] >= from + WINDOW {
        SpacedCounts(times[..n - 1], from);
      } else if CountIn(times, from) > 0 {
        CountedTogether(times, from);
        var c := CountIn(times, from);
      }
    }
  }

  /**
    Over any run, any 60-second window holds at most 10 joins let through from one address, even
    though sweeps forget old entries and whole lists.
  */
  lemma AtMostTenPerWindow(start: real, s: State, events: seq<Event>, ip: string, from: real)
    requires Started(s) && Runs(start, s, events)
    ensures CountIn(Admitted(s, events, ip), from) <= 10
  {
    hide Started, Runs, After, Admitted, CountIn;
    RunRemembers(start, s, events, ip);
    SpacedCounts(Admitted(s, events, ip), from);
  }
}
