/**
 * The networked client's session controller (`ConnectFourRemoteController`
 * in static/connect_four.js): it derives the local player's view of a remote
 * game from each snapshot the server sends, notifies its views only when
 * that view changes, gates moves on it, and polls while it is the other
 * player's turn. Snapshots that the server would answer with are inputs.
 */
module RemoteSession {
  import opened Wrappers
  import opened Grid
  import ServerGame

  /** The controller's `state` string. */
  datatype SessionState = Initial | Waiting | MyTurn | TheirTurn | Won | Lost

  /**
   * The fields of a game snapshot the controller reads. A missing or null
   * field is None; JavaScript's `==` between numbers, null and undefined is
   * then equality of these options.
   */
  datatype Snapshot = Snapshot(id: Option<string>, player: Option<int>, next: Option<int>, winner: Option<int>, state: Option<string>)

  /** One call of `updateViews`: views get the snapshot, state areas the new state. */
  datatype Notification = Notification(state: SessionState, snapshot: Snapshot)

  /** A POST to `/move/<id>/<column>`. */
  datatype MoveRequest = MoveRequest(gameId: Option<string>, column: int)

  datatype ControllerError = NotMyTurn  // "not my turn"

  /** JavaScript truthiness of a numeric snapshot field. */
  predicate Truthy(v: Option<int>)
  {
    v.Some? && v.value != 0
  }

  /**
   * The decision of `updateStateFromJson`, in its priority order: the
   * winner is the player, some other winner, the game waits for an
   * opponent, the player is next, or the opponent is.
   */
  function DeriveState(s: Snapshot): (st: SessionState)
    ensures st != Initial
    ensures st == Won <==> s.winner == s.player
    ensures st == Lost <==> s.winner != s.player && Truthy(s.winner)
    ensures st == Waiting <==> s.winner != s.player && !Truthy(s.winner) && s.state == Some("waiting")
    ensures st == MyTurn <==>
            s.winner != s.player && !Truthy(s.winner) && s.state != Some("waiting") && s.next == s.player
    ensures st == TheirTurn <==>
            s.winner != s.player && !Truthy(s.winner) && s.state != Some("waiting") && s.next != s.player
  {
    if s.winner == s.player then Won
    else if Truthy(s.winner) then Lost
    else if s.state == Some("waiting") then Waiting
    else if s.next == s.player then MyTurn
    else TheirTurn
  }

  /** The snapshot the server sends to the player in seat `player` (no "state" field). */
  function ServerSnapshot(id: string, player: int, next: int, winner: Option<int>): Snapshot
  {
    Snapshot(Some(id), Some(player), Some(next), winner, None)
  }

  /**
   * The client offers a move exactly when the server's `move` would pass
   * both of its checks: the player is next and no winner is recorded.
   */
  lemma MyTurnMatchesServerChecks(id: string, player: int, next: int, winner: Option<int>)
    requires player == 1 || player == 2
    requires winner == None || winner == Some(1) || winner == Some(2)
    ensures DeriveState(ServerSnapshot(id, player, next, winner)) == MyTurn <==>
            player == next && !ServerGame.Decided(winner)
  {
  }

  /**
   * The two seats of one game see matching states: one's turn is the
   * other's wait, one's win the other's loss.
   */
  lemma SeatsSeeOppositeStates(id: string, next: int, winner: Option<int>)
    requires next == 1 || next == 2
    requires winner == None || winner == Some(1) || winner == Some(2)
    ensures DeriveState(ServerSnapshot(id, 1, next, winner)) == MyTurn <==>
            DeriveState(ServerSnapshot(id, 2, next, winner)) == TheirTurn
    ensures DeriveState(ServerSnapshot(id, 1, next, winner)) == TheirTurn <==>
            DeriveState(ServerSnapshot(id, 2, next, winner)) == MyTurn
    ensures DeriveState(ServerSnapshot(id, 1, next, winner)) == Won <==>
            DeriveState(ServerSnapshot(id, 2, next, winner)) == Lost
    ensures DeriveState(ServerSnapshot(id, 1, next, winner)) == Lost <==>
            DeriveState(ServerSnapshot(id, 2, next, winner)) == Won
  {
  }

  /** The states in which `pollState` keeps fetching. */
  predicate Polling(st: SessionState)
  {
    st == TheirTurn || st == Waiting
  }

  /** The controller's state after applying the snapshots of `feed` in order, starting in `st`. */
  function StateAfter(st: SessionState, feed: seq<Snapshot>): (last: SessionState)
    ensures feed != [] ==> last != Initial
  {
    if feed == [] then st else DeriveState(feed[|feed| - 1])
  }

  /** Every notification passes on one of the snapshots of `feed` and the state derived from it. */
  ghost predicate FromFeed(ns: seq<Notification>, feed: seq<Snapshot>)
  {
    forall i :: 0 <= i < |ns| ==> ns[i].snapshot in feed && ns[i].state == DeriveState(ns[i].snapshot)
  }

  /** The notifications emitted while applying the snapshots of `feed` in order, starting in `st`. */
  function Notifications(st: SessionState, feed: seq<Snapshot>): (ns: seq<Notification>)
    decreases |feed|
  {
    if feed == [] then []
    else
      var st' := DeriveState(feed[0]);
      (if st' != st then [Notification(st', feed[0])] else []) + Notifications(st', feed[1..])
  }

  /** Every notification passes on a snapshot of the feed together with the state derived from it. */
  lemma {:induction false} NotificationsFromFeed(st: SessionState, feed: seq<Snapshot>)
    ensures FromFeed(Notifications(st, feed), feed)
    decreases |feed|
  {
    if feed != [] {
      NotificationsFromFeed(DeriveState(feed[0]), feed[1..]);
    }
  }

  /**
   * No notification repeats the state before it: the first differs from the
   * starting state, each differs from its predecessor, the last announces
   * the final state, and there are at most as many as snapshots.
   */
  lemma {:induction false} NotificationsOnlyOnChange(st: SessionState, feed: seq<Snapshot>)
    ensures var ns := Notifications(st, feed);
            && |ns| <= |feed|
            && (ns != [] ==> ns[0].state != st && ns[|ns| - 1].state == StateAfter(st, feed))
            && (ns == [] ==> StateAfter(st, feed) == st)
            && (forall i :: 0 < i < |ns| ==> ns[i - 1].state != ns[i].state)
    decreases |feed|
  {
    if feed != [] {
      var st' := DeriveState(feed[0]);
      NotificationsOnlyOnChange(st', feed[1..]);
      assert StateAfter(st', feed[1..]) == StateAfter(st, feed);
    }
  }

  /** Applying a snapshot a second time notifies no one. */
  lemma SameSnapshotTwiceNotifiesOnce(st: SessionState, s: Snapshot)
    ensures Notifications(st, [s, s]) == Notifications(st, [s])
    ensures |Notifications(st, [s])| <= 1
  {
    assert [s, s][1..] == [s];
    assert [s][1..] == [];
  }

  /** The state after two runs of snapshots is the state after the second, started where the first ended. */
  lemma StateAfterAppend(st: SessionState, a: seq<Snapshot>, b: seq<Snapshot>)
    ensures StateAfter(st, a + b) == StateAfter(StateAfter(st, a), b)
  {
    if b != [] {
      assert (a + b)[|a + b| - 1] == b[|b| - 1];
    } else {
      assert a + b == a;
    }
  }

  /** Applying two runs of snapshots one after the other notifies as applying them together. */
  lemma {:induction false} NotificationsAppend(st: SessionState, a: seq<Snapshot>, b: seq<Snapshot>)
    ensures Notifications(st, a + b) == Notifications(st, a) + Notifications(StateAfter(st, a), b)
    ensures StateAfter(st, a + b) == StateAfter(StateAfter(st, a), b)
    decreases |a|
  {
    StateAfterAppend(st, a, b);
    if a == [] {
      assert a + b == b;
    } else {
      var st' := DeriveState(a[0]);
      assert (a + b)[1..] == a[1..] + b;
      NotificationsAppend(st', a[1..], b);
      assert StateAfter(st', a[1..]) == StateAfter(st, a);
    }
  }

  /**
   * How many snapshots `pollState` fetches from `feed` starting in `st`: it
   * fetches while the state is TheirTurn or Waiting and stops at the first
   * other state (or when the feed runs out).
   */
  function PollCount(st: SessionState, feed: seq<Snapshot>): (n: nat)
    ensures n <= |feed|
    ensures forall i :: 0 <= i < n ==> Polling(StateAfter(st, feed[..i]))
    ensures n < |feed| ==> !Polling(StateAfter(st, feed[..n]))
    decreases |feed|
  {
    if feed == [] || !Polling(st) then 0
    else
      var st' := DeriveState(feed[0]);
      var n := 1 + PollCount(st', feed[1..]);
      assert forall i :: 1 <= i <= |feed| ==> StateAfter(st, feed[..i]) == StateAfter(st', feed[1..][..i - 1]);
      n
  }

  /** The number of columns the remote view assumes (`index % 7`). */
  const ButtonColumns := 7

  /** The column a button of the remote view plays: `index % 7`, whatever the board's width. */
  function ButtonColumn(index: nat): (column: nat)
    ensures column < ButtonColumns
  {
    ColumnOf(index, ButtonColumns)
  }

  /** On a seven-column board laid out row by row, every button plays its own column. */
  lemma ButtonColumnOfCell(col: int, row: nat)
    requires 0 <= col < ButtonColumns
    ensures Index(ButtonColumns, col, row) >= 0 && ButtonColumn(Index(ButtonColumns, col, row)) == col
  {
    ColumnOfCell(ButtonColumns, col, row);
  }

  class RemoteController {
    var state: SessionState
    /** The last snapshot received (`this.json`); None before the first. */
    var json: Option<Snapshot>
    /** Every call of `updateViews`, oldest first. */
    var notifications: seq<Notification>
    /** Every move request sent to the server, oldest first. */
    var requests: seq<MoveRequest>

    /**
     * The state is always the one derived from the last snapshot, and is
     * Initial only before any; every change of state was announced, and the
     * last announcement is the current state.
     */
    ghost predicate Valid()
      reads this
    {
      && (json.None? <==> state == Initial)
      && (json.Some? ==> state == DeriveState(json.value))
      && (notifications == [] <==> state == Initial)
      && (notifications != [] ==> notifications[|notifications| - 1].state == state)
    }

    /** `constructor()`: no views yet and the state "initial". */
    constructor ()
      ensures Valid()
      ensures state == Initial && json == None && notifications == [] && requests == []
    {
      state := Initial;
      json := None;
      notifications := [];
      requests := [];
    }

    /**
     * `updateStateFromJson(json)`: stores the snapshot, derives the new
     * state, and only when it differs from the stored one records it and
     * notifies the views.
     */
    method UpdateStateFromJson(s: Snapshot)
      requires Valid()
      modifies this`state, this`json, this`notifications
      ensures Valid()
      ensures json == Some(s) && state == DeriveState(s)
      ensures notifications == old(notifications) + Notifications(old(state), [s])
      ensures DeriveState(s) != old(state) ==> notifications == old(notifications) + [Notification(DeriveState(s), s)]
      ensures DeriveState(s) == old(state) ==> notifications == old(notifications)
    {
      json := Some(s);
      var newState := DeriveState(s);
      if newState != state {
        state := newState;
        notifications := notifications + [Notification(state, s)];
      }
      assert [s][1..] == [];
    }

    /**
     * `pollState()`: while the state is TheirTurn or Waiting, fetch the next
     * snapshot and apply it. `feed` stands for the server's successive
     * answers; the loop also ends when it runs out.
     */
    method PollState(feed: seq<Snapshot>) returns (polled: nat)
      requires Valid()
      modifies this`state, this`json, this`notifications
      ensures Valid()
      ensures polled == PollCount(old(state), feed)
      ensures polled < |feed| ==> !Polling(state)
      ensures state == StateAfter(old(state), feed[..polled])
      ensures json == if polled == 0 then old(json) else Some(feed[polled - 1])
      ensures notifications == old(notifications) + Notifications(old(state), feed[..polled])
    {
      polled := 0;
      while polled < |feed| && (state == TheirTurn || state == Waiting)
        invariant 0 <= polled <= |feed|
        invariant Valid()
        invariant state == StateAfter(old(state), feed[..polled])
        invariant json == if polled == 0 then old(json) else Some(feed[polled - 1])
        invariant notifications == old(notifications) + Notifications(old(state), feed[..polled])
        invariant PollCount(old(state), feed) == polled + PollCount(state, feed[polled..])
      {
        NotificationsAppend(old(state), feed[..polled], [feed[polled]]);
        assert feed[..polled + 1] == feed[..polled] + [feed[polled]];
        assert feed[polled..][1..] == feed[polled + 1..];
        ghost var before := notifications;
        UpdateStateFromJson(feed[polled]);
        assert notifications == before + Notifications(StateAfter(old(state), feed[..polled]), [feed[polled]]);
        polled := polled + 1;
      }
    }

    /**
     * `move(column)`: refuses with "not my turn", sending nothing, unless
     * the state is MyTurn; otherwise sends the move, applies the server's
     * answer and polls while the opponent is to play.
     */
    method Move(column: int, answer: Snapshot, feed: seq<Snapshot>) returns (r: Outcome<ControllerError>, polled: nat)
      requires Valid()
      modifies this
      ensures Valid()
      ensures old(state) != MyTurn ==> r == Fail(NotMyTurn) && polled == 0 && unchanged(this)
      ensures old(state) == MyTurn ==>
              && r == Pass
              && requests == old(requests) + [MoveRequest(old(json).value.id, column)]
              && polled == PollCount(DeriveState(answer), feed)
              && state == StateAfter(old(state), [answer] + feed[..polled])
              && notifications == old(notifications) + Notifications(old(state), [answer] + feed[..polled])
              && json == Some(if polled == 0 then answer else feed[polled - 1])
    {
      if state != MyTurn {
        return Fail(NotMyTurn), 0;
      }
      requests := requests + [MoveRequest(json.value.id, column)];
      ghost var st0 := state;
      UpdateStateFromJson(answer);
      polled := PollState(feed);
      NotificationsAppend(st0, [answer], feed[..polled]);
      return Pass, polled;
    }
  }
}
