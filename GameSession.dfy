/** The lobby a game is played from: a named session with a capacity, the
    names of the players who joined, and a status that only moves forward,
    from waiting for players to in progress to completed. */
module Sessions {
  import opened Wrappers
  import opened Lists

  datatype Status = WaitingForPlayers | InProgress | Completed | Cancelled

  const TooFewSeats := "The max number of players must be greater than 1"

  /** The name `Create` enters the creator under. */
  function CreatorName(createdByUserId: string): (r: string)
    ensures |r| == 7 + |createdByUserId| && r[..7] == "Player_" && r[7..] == createdByUserId
  {
    "Player_" + createdByUserId
  }

  // ---------------------------------------------------------------------
  // The roster, on values

  /** What the lobby promises of its roster: no name twice, and no more
      names than seats. */
  predicate RosterOk(players: seq<string>, maxPlayers: int) {
    Distinct(players) && |players| <= maxPlayers
  }

  /** `AddPlayer`: the roster afterwards, and whether the name was added. A
      name already present or a full roster leaves it as it is. */
  function AddToRoster(players: seq<string>, maxPlayers: int, name: string): (r: (seq<string>, bool))
    ensures r.1 <==> name !in players && |players| < maxPlayers
    ensures name in r.0
      || (!r.1 && |players| >= maxPlayers)
    ensures multiset(r.0) == multiset(players) + (if r.1 then multiset{name} else multiset{})
    ensures !r.1 ==> r.0 == players
    ensures r.1 ==> r.0 == players + [name]
  {
    if name in players || |players| >= maxPlayers then (players, false)
    else (players + [name], true)
  }

  /** `RemovePlayer`: the roster without the first occurrence of the name,
      and whether there was one. */
  function RemoveFromRoster(players: seq<string>, name: string): (r: (seq<string>, bool))
    ensures r.1 <==> name in players
    ensures !r.1 ==> r.0 == players
    ensures multiset(r.0) == multiset(players) - multiset{name}
  {
    (RemoveFirst(players, name), name in players)
  }

  /** Adding keeps the roster without duplicates and within its seats. */
  lemma AddKeepsRosterOk(players: seq<string>, maxPlayers: int, name: string)
    requires RosterOk(players, maxPlayers)
    ensures RosterOk(AddToRoster(players, maxPlayers, name).0, maxPlayers)
  {
    var r := AddToRoster(players, maxPlayers, name);
    if r.1 {
      forall i, j | 0 <= i < j < |r.0| ensures r.0[i] != r.0[j] {
        if j == |players| {
          assert r.0[i] == players[i];
        } else {
          assert r.0[i] == players[i] && r.0[j] == players[j];
        }
      }
    }
  }

  /** Removing keeps the roster without duplicates, and the removed name is
      then gone altogether. */
  lemma RemoveKeepsRosterOk(players: seq<string>, maxPlayers: int, name: string)
    requires RosterOk(players, maxPlayers)
    ensures RosterOk(RemoveFromRoster(players, name).0, maxPlayers)
    ensures name !in RemoveFromRoster(players, name).0
  {
    RemoveFirstOfDistinct(players, name);
  }

  /** Removing a name that was just added gives back the roster it was added
      to. */
  lemma AddThenRemove(players: seq<string>, maxPlayers: int, name: string)
    requires RosterOk(players, maxPlayers)
    requires AddToRoster(players, maxPlayers, name).1
    ensures RemoveFromRoster(AddToRoster(players, maxPlayers, name).0, name) == (players, true)
  {
    var added := players + [name];
    assert IndexOf(added, name) == |players| by {
      assert added[..|players|] == players;
    }
    assert added[..|players|] + added[|players| + 1..] == players;
  }

  /** Adding back a name that was just removed is accepted and restores the
      roster's contents (at the end of the list rather than in its old
      place). */
  lemma RemoveThenAdd(players: seq<string>, maxPlayers: int, name: string)
    requires RosterOk(players, maxPlayers)
    requires RemoveFromRoster(players, name).1
    ensures var removed := RemoveFromRoster(players, name).0;
      AddToRoster(removed, maxPlayers, name).1 &&
      multiset(AddToRoster(removed, maxPlayers, name).0) == multiset(players)
  {
    RemoveKeepsRosterOk(players, maxPlayers, name);
  }

  // ---------------------------------------------------------------------
  // The status, on values

  /** `StartGame`: a waiting session with at least two players starts;
      anything else stays as it is. */
  function Started(status: Status, playerCount: nat): (r: Status)
    ensures r != status <==> status == WaitingForPlayers && playerCount >= 2
    ensures r != status ==> r == InProgress
  {
    if status == WaitingForPlayers && playerCount >= 2 then InProgress else status
  }

  /** `EndGame`: a session in progress completes; anything else stays. */
  function Ended(status: Status): (r: Status)
    ensures r != status <==> status == InProgress
    ensures r != status ==> r == Completed
  {
    if status == InProgress then Completed else status
  }

  /** How far along its life a session is; a cancelled one is as far as it
      goes. */
  function Stage(s: Status): nat {
    match s
    case WaitingForPlayers => 0
    case InProgress => 1
    case Completed => 2
    case Cancelled => 3
  }

  /** No transition moves a session back, each moves it at most one stage
      on, and completed and cancelled sessions never change again. */
  lemma StatusOnlyMovesForward(s: Status, playerCount: nat)
    ensures Stage(s) <= Stage(Started(s, playerCount)) <= Stage(s) + 1
    ensures Stage(s) <= Stage(Ended(s)) <= Stage(s) + 1
    ensures s in {Completed, Cancelled} ==> Started(s, playerCount) == s && Ended(s) == s
    ensures Started(s, playerCount) != Cancelled || s == Cancelled
    ensures Ended(s) != Cancelled || s == Cancelled
  {
  }

  /** Starting twice is starting once, and so is ending; a game cannot be
      started again after it ended. */
  lemma TransitionsSettle(s: Status, playerCount: nat)
    ensures Started(Started(s, playerCount), playerCount) == Started(s, playerCount)
    ensures Ended(Ended(s)) == Ended(s)
    ensures Started(Ended(Started(s, playerCount)), playerCount) == Ended(Started(s, playerCount))
  {
  }

  /** `CanJoin`: waiting, with a free seat. */
  predicate Joinable(status: Status, playerCount: nat, maxPlayers: int) {
    status == WaitingForPlayers && playerCount < maxPlayers
  }

  /** A session that can be joined accepts every name it does not hold yet,
      and starting the game closes it to newcomers exactly when it starts. */
  lemma JoinableAdmitsNewcomer(players: seq<string>, maxPlayers: int, status: Status, name: string)
    requires Joinable(status, |players|, maxPlayers) && name !in players
    ensures AddToRoster(players, maxPlayers, name) == (players + [name], true)
    ensures !Joinable(Started(status, |players|), |players|, maxPlayers) <==> |players| >= 2
  {
  }

  class GameSession {
    const id: string
    const code: string
    const createdByUserId: string
    const name: string
    const maxPlayers: int
    var status: Status
    /** The names of the players who joined, in order of joining. */
    var players: seq<string>

    /** The invariant `Create` establishes and every method keeps. */
    ghost predicate Valid()
      reads this
    {
      maxPlayers > 1 && RosterOk(players, maxPlayers)
    }

    /** The object initialiser of `Create`, before the roster is filled. */
    constructor (id: string, code: string, createdByUserId: string, name: string, maxPlayers: int)
      ensures this.id == id && this.code == code && this.createdByUserId == createdByUserId
      ensures this.name == name && this.maxPlayers == maxPlayers
      ensures status == WaitingForPlayers && players == []
    {
      this.id := id;
      this.code := code;
      this.createdByUserId := createdByUserId;
      this.name := name;
      this.maxPlayers := maxPlayers;
      status := WaitingForPlayers;
      players := [];
    }

    /** `GameSession.Create`: a waiting session whose only player is its
        creator; fewer than two seats is an argument error. The generated
        id and the random code are passed in. */
    static method Create(createdByUserId: string, name: string, maxPlayers: int, id: string,
                         code: string) returns (r: Result<GameSession>)
      ensures r.Failure? <==> maxPlayers <= 1
      ensures r.Failure? ==> r.error == TooFewSeats
      ensures r.Success? ==>
        var s := r.value;
        && fresh(s) && s.Valid()
        && s.id == id && s.code == code && s.createdByUserId == createdByUserId
        && s.name == name && s.maxPlayers == maxPlayers
        && s.status == WaitingForPlayers && s.players == [CreatorName(createdByUserId)]
        && s.IsCreator(createdByUserId) && s.CanJoin()
    {
      if maxPlayers <= 1 {
        return Failure(TooFewSeats);
      }
      var s := new GameSession(id, code, createdByUserId, name, maxPlayers);
      s.players := [CreatorName(createdByUserId)];
      return Success(s);
    }

    method AddPlayer(playerName: string) returns (added: bool)
      modifies this`players
      ensures (players, added) == AddToRoster(old(players), maxPlayers, playerName)
      ensures old(Valid()) ==> Valid()
    {
      if playerName in players || |players| >= maxPlayers {
        return false;
      }
      if Valid() {
        AddKeepsRosterOk(players, maxPlayers, playerName);
      }
      players := players + [playerName];
      return true;
    }

    method RemovePlayer(playerName: string) returns (removed: bool)
      modifies this`players
      ensures (players, removed) == RemoveFromRoster(old(players), playerName)
      ensures old(Valid()) ==> Valid() && !(playerName in players)
    {
      if Valid() {
        RemoveKeepsRosterOk(players, maxPlayers, playerName);
      }
      removed := playerName in players;
      players := RemoveFirst(players, playerName);
    }

    method StartGame()
      modifies this`status
      ensures status == Started(old(status), |players|)
    {
      if status == WaitingForPlayers && |players| >= 2 {
        status := InProgress;
      }
    }

    method EndGame()
      modifies this`status
      ensures status == Ended(old(status))
    {
      if status == InProgress {
        status := Completed;
      }
    }

    predicate IsCreator(userId: string) {
      createdByUserId == userId
    }

    predicate IsFull()
      reads this
    {
      |players| >= maxPlayers
    }

    predicate CanJoin()
      reads this
      ensures CanJoin() <==> Joinable(status, |players|, maxPlayers)
    {
      status == WaitingForPlayers && !IsFull()
    }
  }
}
