/**
 Concrete runs of the agent on small hand-made inputs: integer states and the
 five Pacman directions as actions.
 */
module Scenarios {
  import opened QTable
  import opened QLearn
  import opened Episodes

  datatype Direction = North | South | East | West | Stop

  /** Two legal moves of equal value: greedy selection takes the first one listed. */
  lemma TieGoesToFirstListed(q: Table<int, Direction>)
    requires q == map[(7, North) := 3.0, (7, East) := 3.0]
    ensures GetActionFromQTable(q, 7, [North, East]).0 == North
  {
    GreedyPicksFirstBest(q, 7, [North, East], 0);
  }

  /** The agent of the training scenario before its first move. */
  predicate Fresh(ag: QLearnAgent<int, Direction>) {
    ag == Init(1.0, 1.0, 0.9, 1)
  }

  /** The first move, at state 0 with score 0: East is the only move besides Stop. */
  lemma FirstMove(ag0: QLearnAgent<int, Direction>)
    requires Fresh(ag0)
    ensures
      var (ag1, pick) := GetAction(ag0, Observation(0, [East, Stop], 0.0), Stop, 0.5, 0);
      && pick == East
      && ag1.prev == Some(Transition(0, East, 0.0))
      && ag1.alpha == 1.0 && ag1.epsilon == 1.0 && ag1.gamma == 0.9
      && ag1.numTraining == 1 && ag1.episodesSoFar == 0
      && Lookup(ag1.qTable, 0, East) == 0.0 && Lookup(ag1.qTable, 1, West) == 0.0
  {
    RemovesStop(East);
    var ag1 := GetAction(ag0, Observation(0, [East, Stop], 0.0), Stop, 0.5, 0).0;
    GrowsByZerosKeepsLookup(UpdateQTable(ag0, 0, 0.0, [East]).qTable, ag1.qTable);
  }

  /** The second move, at state 1 with score 5: the first transition learns the reward 5. */
  lemma SecondMove(ag1: QLearnAgent<int, Direction>)
    requires ag1.prev == Some(Transition(0, East, 0.0))
    requires ag1.alpha == 1.0 && ag1.epsilon == 1.0 && ag1.gamma == 0.9
    requires Lookup(ag1.qTable, 0, East) == 0.0 && Lookup(ag1.qTable, 1, West) == 0.0
    ensures
      var (ag2, pick) := GetAction(ag1, Observation(1, [West, Stop], 5.0), Stop, 0.5, 0);
      && pick == West
      && ag2.prev == Some(Transition(1, West, 5.0))
      && ag2.(qTable := ag1.qTable, prev := ag1.prev) == ag1
      && Lookup(ag2.qTable, 0, East) == 5.0 && Lookup(ag2.qTable, 1, West) == 0.0
  {
    RemovesStop(West);
    var ag2 := GetAction(ag1, Observation(1, [West, Stop], 5.0), Stop, 0.5, 0).0;
    var u := UpdateQTable(ag1, 1, 5.0, [West]);
    assert MaxNext(ag1.qTable, 1, [West]) == 0.0;
    UpdateChangesOnlyPrevEntry(ag1, 1, 5.0, [West], 1, West);
    GrowsByZerosKeepsLookup(u.qTable, ag2.qTable);
  }

  /** The end of the game at score 5: the last transition learns reward 0 and training is over. */
  lemma GameEnd(ag2: QLearnAgent<int, Direction>)
    requires ag2.prev == Some(Transition(1, West, 5.0))
    requires ag2.alpha == 1.0 && ag2.numTraining == 1 && ag2.episodesSoFar == 0
    requires Lookup(ag2.qTable, 0, East) == 5.0 && Lookup(ag2.qTable, 1, West) == 0.0
    ensures
      var ag3 := Final(ag2, Observation(1, [], 5.0));
      && Lookup(ag3.qTable, 0, East) == 5.0 && Lookup(ag3.qTable, 1, West) == 0.0
      && ag3.episodesSoFar == 1 && Frozen(ag3)
  {
  }

  /**
   One training game with numTraining 1, alpha 1, epsilon 1 and gamma 0.9:
   a random move East at state 0 with score 0, a move at state 1 with score 5,
   and the end of the game at score 5. The first transition learns the reward
   5, and the agent is frozen afterwards.
   */
  lemma OneTrainingGame(ag0: QLearnAgent<int, Direction>)
    requires Fresh(ag0)
    ensures
      var ag1 := GetAction(ag0, Observation(0, [East, Stop], 0.0), Stop, 0.5, 0).0;
      var ag2 := GetAction(ag1, Observation(1, [West, Stop], 5.0), Stop, 0.5, 0).0;
      var ag3 := Final(ag2, Observation(1, [], 5.0));
      Lookup(ag3.qTable, 0, East) == 5.0 && Frozen(ag3)
  {
    FirstMove(ag0);
    var ag1 := GetAction(ag0, Observation(0, [East, Stop], 0.0), Stop, 0.5, 0).0;
    SecondMove(ag1);
    var ag2 := GetAction(ag1, Observation(1, [West, Stop], 5.0), Stop, 0.5, 0).0;
    GameEnd(ag2);
  }

  lemma RemovesStop(d: Direction)
    requires d != Stop
    ensures RemoveFirst([d, Stop], Stop) == [d]
  {
    assert FirstIndex([d, Stop], Stop) == 1;
  }
}
