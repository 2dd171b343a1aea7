/**
 * The best-of-three rock-paper-scissors match between a host and one opponent.
 *
 * A match waits for an opponent, is played round by round (each player picks once per
 * round, the round is judged once, then the next round starts) and is finished when a
 * player has two wins, when three rounds have been played, or when a player forfeits.
 * User identities are plain integers; the chat platform, the emoji table, the clock and
 * the statistics store are not modelled.
 */
module RockPaperScissors {
  import opened Common

  /** The phase of a match. */
  datatype GameState = Waiting | Playing | Finished

  /** What a player shows. */
  datatype Choice = Rock | Paper | Scissors

  /** How a round ends, seen from the host. */
  datatype Outcome = Draw | HostWin | OpponentWin

  /** `a` beats `b`: rock beats scissors, paper beats rock, scissors beat paper. */
  predicate Beats(a: Choice, b: Choice)
  {
    (a == Rock && b == Scissors) || (a == Paper && b == Rock) || (a == Scissors && b == Paper)
  }

  /**
   * The verdict of a round: a draw exactly when both chose the same, a host win exactly
   * when the host's choice beats the opponent's, and otherwise (exactly when the
   * opponent's choice beats the host's) an opponent win.
   */
  function Judge(host: Choice, opponent: Choice): (o: Outcome)
    ensures o == Draw <==> host == opponent
    ensures o == HostWin <==> Beats(host, opponent)
    ensures o == OpponentWin <==> Beats(opponent, host)
  {
    if host == opponent then Draw
    else if (host == Rock && opponent == Scissors) || (host == Paper && opponent == Rock) ||
            (host == Scissors && opponent == Paper) then HostWin
    else OpponentWin
  }

  /** Swapping the two players swaps host and opponent wins and keeps draws. */
  lemma JudgeSwapped(a: Choice, b: Choice)
    ensures Judge(a, b) == Draw <==> Judge(b, a) == Draw
    ensures Judge(a, b) == HostWin <==> Judge(b, a) == OpponentWin
  {
  }

  /** One round as the history keeps it: its number, both choices, the verdict and the winner's id. */
  datatype RoundRecord = RoundRecord(round: int, hostChoice: Choice, opponentChoice: Choice,
                                     outcome: Outcome, winner: Option<int>)

  /** The record of round `round` judged from the two choices; the winner is the host, the opponent, or none. */
  function RecordFor(round: int, hostChoice: Choice, opponentChoice: Choice,
                     hostId: int, opponentId: Option<int>): (r: RoundRecord)
    ensures r.round == round && r.hostChoice == hostChoice && r.opponentChoice == opponentChoice
    ensures r.outcome == Judge(hostChoice, opponentChoice)
    ensures r.winner.None? <==> hostChoice == opponentChoice || (Beats(opponentChoice, hostChoice) && opponentId.None?)
    ensures Beats(hostChoice, opponentChoice) ==> r.winner == Some(hostId)
    ensures Beats(opponentChoice, hostChoice) ==> r.winner == opponentId
  {
    var o := Judge(hostChoice, opponentChoice);
    RoundRecord(round, hostChoice, opponentChoice, o,
                match o
                case Draw => None
                case HostWin => Some(hostId)
                case OpponentWin => opponentId)
  }

  /** The number of rounds in `h` with verdict `o`. */
  function CountOutcome(h: seq<RoundRecord>, o: Outcome): nat
  {
    if h == [] then 0
    else CountOutcome(h[..|h| - 1], o) + (if h[|h| - 1].outcome == o then 1 else 0)
  }

  /** Every recorded round is a draw, a host win or an opponent win, so the three counts add up to the history's length. */
  lemma {:induction false} OutcomesPartition(h: seq<RoundRecord>)
    ensures CountOutcome(h, Draw) + CountOutcome(h, HostWin) + CountOutcome(h, OpponentWin) == |h|
  {
    if h != [] {
      var front := h[..|h| - 1];
      OutcomesPartition(front);
      CountAppend(front, h[|h| - 1]);
      assert h == front + [h[|h| - 1]];
    }
  }

  /** Appending a record adds one to the count of its verdict and leaves the other counts. */
  lemma CountAppend(h: seq<RoundRecord>, r: RoundRecord)
    ensures forall o :: CountOutcome(h + [r], o) == CountOutcome(h, o) + (if r.outcome == o then 1 else 0)
  {
    assert (h + [r])[..|h|] == h;
  }

  /** Round numbers increase along the history. */
  ghost predicate RoundsIncreasing(h: seq<RoundRecord>)
  {
    forall i, j :: 0 <= i < j < |h| ==> h[i].round < h[j].round
  }

  /** A history whose round numbers increase and lie between 1 and `n` holds at most `n` rounds. */
  lemma {:induction false} HistoryBound(h: seq<RoundRecord>, n: nat)
    requires RoundsIncreasing(h)
    requires forall i :: 0 <= i < |h| ==> 1 <= h[i].round <= n
    ensures |h| <= n
    decreases |h|
  {
    if h != [] {
      var m := h[|h| - 1].round;
      var front := h[..|h| - 1];
      forall i | 0 <= i < |front|
        ensures 1 <= front[i].round <= m - 1
      {
        assert front[i] == h[i] && h[i].round < h[|h| - 1].round;
      }
      HistoryBound(front, m - 1);
    }
  }

  class RockPaperScissorsGame {
    const hostId: int
    const maxRounds: int
    var opponentId: Option<int>
    var state: GameState
    var roundsPlayed: int
    var hostWins: int
    var opponentWins: int
    var currentRound: int
    var hostChoice: Option<Choice>
    var opponentChoice: Option<Choice>
    var roundHistory: seq<RoundRecord>
    var roundResultCalculated: bool

    /**
     * The current round is one past the rounds played; the opponent is someone other than
     * the host, absent while waiting and present while playing; nobody picks while waiting;
     * until the match is finished the win counters count the recorded wins, fewer than
     * three rounds have been played, and before the current round is judged neither
     * player has two wins. Recorded round numbers increase and do not pass the current
     * one; once the current round is judged its record is the last one, and before that
     * every record is of an earlier round.
     */
    ghost predicate Valid()
      reads this
    {
      maxRounds == 3 && 0 <= roundsPlayed && currentRound == roundsPlayed + 1 &&
      0 <= hostWins && 0 <= opponentWins &&
      (opponentId.Some? ==> opponentId.value != hostId) &&
      (state == Waiting ==> opponentId.None? && hostChoice.None? && opponentChoice.None? && roundHistory == []) &&
      (state == Playing ==> opponentId.Some?) &&
      (state != Finished ==>
         roundsPlayed < maxRounds &&
         hostWins == CountOutcome(roundHistory, HostWin) && opponentWins == CountOutcome(roundHistory, OpponentWin)) &&
      (state == Playing && !roundResultCalculated ==> hostWins < 2 && opponentWins < 2) &&
      RoundsIncreasing(roundHistory) &&
      (forall i :: 0 <= i < |roundHistory| ==> 1 <= roundHistory[i].round <= currentRound) &&
      (roundResultCalculated ==>
         hostChoice.Some? && opponentChoice.Some? && roundHistory != [] &&
         roundHistory[|roundHistory| - 1] ==
           RecordFor(currentRound, hostChoice.value, opponentChoice.value, hostId, opponentId)) &&
      (!roundResultCalculated ==> forall i :: 0 <= i < |roundHistory| ==> roundHistory[i].round < currentRound)
    }

    /** A new match opened by `hostId`: waiting, round 1, no wins, no history. */
    constructor (hostId: int)
      ensures Valid()
      ensures this.hostId == hostId && opponentId.None? && state == Waiting
      ensures roundsPlayed == 0 && currentRound == 1 && hostWins == 0 && opponentWins == 0
      ensures hostChoice.None? && opponentChoice.None? && roundHistory == [] && !roundResultCalculated
    {
      this.hostId := hostId;
      maxRounds := 3;
      opponentId := None;
      state := Waiting;
      roundsPlayed := 0;
      hostWins := 0;
      opponentWins := 0;
      currentRound := 1;
      hostChoice := None;
      opponentChoice := None;
      roundHistory := [];
      roundResultCalculated := false;
    }

    /**
     * Join as the opponent: accepted exactly while waiting and for someone other than the
     * host, which starts play; otherwise nothing changes.
     */
    method JoinGame(userId: int) returns (joined: bool)
      requires Valid()
      modifies this
      ensures Valid()
      ensures joined <==> old(state) == Waiting && userId != hostId
      ensures joined ==>
        opponentId == Some(userId) && state == Playing &&
        roundsPlayed == old(roundsPlayed) && currentRound == old(currentRound) &&
        hostWins == old(hostWins) && opponentWins == old(opponentWins) &&
        hostChoice == old(hostChoice) && opponentChoice == old(opponentChoice) &&
        roundHistory == old(roundHistory) && roundResultCalculated == old(roundResultCalculated)
      ensures !joined ==> unchanged(this)
    {
      if state != Waiting || userId == hostId {
        return false;
      }
      opponentId := Some(userId);
      state := Playing;
      return true;
    }

    /**
     * Pick `choice` for this round: accepted exactly while playing, for the host or the
     * opponent, when that player has not picked yet this round; only that player's pick
     * changes. Otherwise nothing changes.
     */
    method MakeChoice(userId: int, choice: Choice) returns (accepted: bool)
      requires Valid()
      modifies this
      ensures Valid()
      ensures accepted <==>
        old(state) == Playing &&
        ((userId == hostId && old(hostChoice).None?) ||
         (userId != hostId && old(opponentId) == Some(userId) && old(opponentChoice).None?))
      ensures accepted && userId == hostId ==> hostChoice == Some(choice) && opponentChoice == old(opponentChoice)
      ensures accepted && userId != hostId ==> opponentChoice == Some(choice) && hostChoice == old(hostChoice)
      ensures accepted ==>
        opponentId == old(opponentId) && state == old(state) &&
        roundsPlayed == old(roundsPlayed) && currentRound == old(currentRound) &&
        hostWins == old(hostWins) && opponentWins == old(opponentWins) &&
        roundHistory == old(roundHistory) && roundResultCalculated == old(roundResultCalculated)
      ensures !accepted ==> unchanged(this)
    {
      if state != Playing {
        return false;
      }
      if userId == hostId {
        if hostChoice.Some? {
          return false;
        }
        hostChoice := Some(choice);
      } else if opponentId == Some(userId) {
        if opponentChoice.Some? {
          return false;
        }
        opponentChoice := Some(choice);
      } else {
        return false;
      }
      return true;
    }

    /** Both players have picked this round. */
    predicate BothChoicesMade()
      reads this
    {
      hostChoice.Some? && opponentChoice.Some?
    }

    /**
     * In a valid match both players have picked only once the opponent has joined, and
     * they always have once the round is judged.
     */
    lemma ChoicesMadeInPlay()
      requires Valid()
      ensures roundResultCalculated ==> BothChoicesMade()
      ensures BothChoicesMade() ==> state != Waiting
    {
    }

    /**
     * The result of the current round. Nothing until both have picked. The first call
     * after both picked judges the round, adds one win to the winner's counter (none on
     * a draw), appends the record and marks the round judged; later calls return the
     * same record and change nothing.
     */
    method GetRoundResult() returns (r: Option<RoundRecord>)
      requires Valid()
      modifies this
      ensures Valid()
      ensures !old(BothChoicesMade()) ==> r.None? && unchanged(this)
      ensures old(BothChoicesMade()) && old(roundResultCalculated) ==>
        r == Some(old(roundHistory)[|old(roundHistory)| - 1]) && unchanged(this)
      ensures old(BothChoicesMade()) && !old(roundResultCalculated) ==>
        var rec := RecordFor(old(currentRound), old(hostChoice).value, old(opponentChoice).value, hostId, old(opponentId));
        r == Some(rec) && roundHistory == old(roundHistory) + [rec] && roundResultCalculated &&
        hostWins == old(hostWins) + (if rec.outcome == HostWin then 1 else 0) &&
        opponentWins == old(opponentWins) + (if rec.outcome == OpponentWin then 1 else 0) &&
        opponentId == old(opponentId) && state == old(state) && roundsPlayed == old(roundsPlayed) &&
        currentRound == old(currentRound) && hostChoice == old(hostChoice) && opponentChoice == old(opponentChoice)
      ensures BothChoicesMade() ==> roundResultCalculated && r == Some(roundHistory[|roundHistory| - 1])
    {
      if !BothChoicesMade() {
        return None;
      }
      if roundResultCalculated {
        r := LookUpCurrentRound();
        return;
      }
      var rec := JudgeRound();
      return Some(rec);
    }

    /**
     * The first judging of a round both players picked in: one win for the winner (none on
     * a draw), the record appended, the round marked judged.
     */
    method JudgeRound() returns (rec: RoundRecord)
      requires Valid() && BothChoicesMade() && !roundResultCalculated
      modifies this
      ensures Valid()
      ensures rec == RecordFor(old(currentRound), old(hostChoice).value, old(opponentChoice).value, hostId, old(opponentId))
      ensures roundHistory == old(roundHistory) + [rec] && roundResultCalculated
      ensures hostWins == old(hostWins) + (if rec.outcome == HostWin then 1 else 0)
      ensures opponentWins == old(opponentWins) + (if rec.outcome == OpponentWin then 1 else 0)
      ensures opponentId == old(opponentId) && state == old(state) && roundsPlayed == old(roundsPlayed)
      ensures currentRound == old(currentRound) && hostChoice == old(hostChoice) && opponentChoice == old(opponentChoice)
    {
      rec := RecordFor(currentRound, hostChoice.value, opponentChoice.value, hostId, opponentId);
      CountAppend(roundHistory, rec);
      if rec.outcome == HostWin {
        hostWins := hostWins + 1;
      } else if rec.outcome == OpponentWin {
        opponentWins := opponentWins + 1;
      }
      roundHistory := roundHistory + [rec];
      roundResultCalculated := true;
    }

    /** The history scan of a round already judged: the first record of the current round, which is the last record. */
    method LookUpCurrentRound() returns (r: Option<RoundRecord>)
      requires Valid() && roundResultCalculated
      ensures r == Some(roundHistory[|roundHistory| - 1])
    {
      assert forall k :: 0 <= k < |roundHistory| - 1 ==> roundHistory[k].round < currentRound;
      var i := 0;
      while i < |roundHistory|
        invariant 0 <= i <= |roundHistory|
        invariant forall k :: 0 <= k < i ==> roundHistory[k].round != currentRound
      {
        if roundHistory[i].round == currentRound {
          return Some(roundHistory[i]);
        }
        i := i + 1;
      }
      assert false;
    }

    /**
     * Move to the next round: the round number and the played count grow by one, the picks
     * are cleared, the round is unjudged again; the match is finished when a player has two
     * wins or three rounds have been played, and otherwise keeps its phase.
     */
    method NextRound()
      requires Valid()
      modifies this
      ensures Valid()
      ensures currentRound == old(currentRound) + 1 && roundsPlayed == old(roundsPlayed) + 1
      ensures hostChoice.None? && opponentChoice.None? && !roundResultCalculated
      ensures state == (if hostWins >= 2 || opponentWins >= 2 || roundsPlayed >= maxRounds then Finished else old(state))
      ensures opponentId == old(opponentId) && hostWins == old(hostWins) && opponentWins == old(opponentWins)
      ensures roundHistory == old(roundHistory)
    {
      currentRound := currentRound + 1;
      roundsPlayed := roundsPlayed + 1;
      hostChoice := None;
      opponentChoice := None;
      roundResultCalculated := false;
      if hostWins >= 2 || opponentWins >= 2 || roundsPlayed >= 3 {
        state := Finished;
      }
    }

    /**
     * The winner of the match: nobody until it is finished, then the player with strictly
     * more wins, and nobody on a tie.
     */
    function GameWinner(): (w: Option<int>)
      reads this
      ensures w.Some? ==> state == Finished && hostWins != opponentWins
      ensures state == Finished && hostWins > opponentWins ==> w == Some(hostId)
      ensures state == Finished && opponentWins > hostWins ==> w == opponentId
    {
      if state != Finished then None
      else if hostWins > opponentWins then Some(hostId)
      else if opponentWins > hostWins then opponentId
      else None
    }

    /**
     * Give up the match: accepted exactly from the host or the opponent; the match is then
     * finished with the quitter on 0 wins and the other player on 2, so the other player
     * is the winner. Anyone else changes nothing.
     */
    method Forfeit(userId: int) returns (accepted: bool)
      requires Valid()
      modifies this
      ensures Valid()
      ensures accepted <==> userId == hostId || old(opponentId) == Some(userId)
      ensures accepted ==>
        state == Finished &&
        (if userId == hostId then hostWins == 0 && opponentWins == 2 else hostWins == 2 && opponentWins == 0) &&
        GameWinner() == (if userId == hostId then opponentId else Some(hostId))
      ensures accepted ==>
        opponentId == old(opponentId) && roundsPlayed == old(roundsPlayed) && currentRound == old(currentRound) &&
        hostChoice == old(hostChoice) && opponentChoice == old(opponentChoice) &&
        roundHistory == old(roundHistory) && roundResultCalculated == old(roundResultCalculated)
      ensures !accepted ==> unchanged(this)
    {
      if userId != hostId && opponentId != Some(userId) {
        return false;
      }
      state := Finished;
      if userId == hostId {
        opponentWins := 2;
        hostWins := 0;
      } else {
        hostWins := 2;
        opponentWins := 0;
      }
      return true;
    }

    /**
     * While the match is played, fewer than three rounds are behind it, at most three
     * rounds are recorded and at most three wins counted.
     */
    lemma PlayingBounds()
      requires Valid() && state == Playing
      ensures roundsPlayed < 3 && |roundHistory| <= 3 && hostWins + opponentWins <= |roundHistory|
    {
      HistoryBound(roundHistory, currentRound);
      OutcomesPartition(roundHistory);
    }
  }

  /**
   * Asking for the result of a judged round again returns the same record and counts no
   * win twice.
   */
  method ResultTwice(g: RockPaperScissorsGame) returns (first: Option<RoundRecord>, second: Option<RoundRecord>)
    requires g.Valid() && g.BothChoicesMade()
    modifies g
    ensures first == second && first.Some?
    ensures g.hostWins + g.opponentWins <= old(g.hostWins + g.opponentWins) + 1
  {
    first := g.GetRoundResult();
    second := g.GetRoundResult();
  }

  /** A match the host wins two rounds to none: it is finished after the second round. */
  method HostWinsTwoStraight() returns (w: Option<int>)
    ensures w == Some(1)
  {
    var g := new RockPaperScissorsGame(1);
    var joined := g.JoinGame(2);
    PlayHostWin(g);
    PlayHostWin(g);
    w := g.GameWinner();
  }

  /** One round that the host (user 1) wins with rock against the opponent's (user 2) scissors. */
  method PlayHostWin(g: RockPaperScissorsGame)
    requires g.Valid() && g.hostId == 1 && g.opponentId == Some(2) && !g.BothChoicesMade()
    requires g.state == Playing ==> g.hostChoice.None? && g.opponentChoice.None?
    modifies g
    ensures g.Valid() && g.hostId == 1 && g.opponentId == Some(2) && !g.BothChoicesMade()
    ensures g.state == Playing ==> g.hostChoice.None? && g.opponentChoice.None?
    ensures old(g.state) == Playing ==> g.hostWins == old(g.hostWins) + 1 && g.opponentWins == old(g.opponentWins)
    ensures old(g.state) == Playing && old(g.hostWins) == 1 ==> g.state == Finished
    ensures old(g.state) == Playing && old(g.hostWins) == 0 && old(g.roundsPlayed) == 0 ==> g.state == Playing
  {
    var a := g.MakeChoice(1, Rock);
    var b := g.MakeChoice(2, Scissors);
    var r := g.GetRoundResult();
    g.NextRound();
  }
}
