/**
 Sequences of engine callbacks: the moves of a game and the end-of-game call,
 repeated over many games. The properties here are about the whole life of an
 agent: it counts games, and training switches off once and for all.
 */
module Episodes {
  import opened QTable
  import opened QLearn

  /** One callback from the engine: a move, with its random draws, or the end of a game. */
  datatype Event<S, A> =
    | Move(obs: Observation<S, A>, draw: real, choice: nat)
    | GameOver(obs: Observation<S, A>)

  /** Every move in evs meets GetAction's requirements. */
  predicate Playable<S, A(==)>(evs: seq<Event<S, A>>, stop: A) {
    forall i :: 0 <= i < |evs| && evs[i].Move? ==> CanAct(evs[i].obs, stop, evs[i].draw, evs[i].choice)
  }

  function Step<S(==), A(==)>(ag: QLearnAgent<S, A>, e: Event<S, A>, stop: A): QLearnAgent<S, A>
    requires e.Move? ==> CanAct(e.obs, stop, e.draw, e.choice)
  {
    match e
    case Move(obs, draw, choice) => GetAction(ag, obs, stop, draw, choice).0
    case GameOver(obs) => Final(ag, obs)
  }

  /** The agent after the engine has made the callbacks evs, in order. */
  function Run<S(==), A(==)>(ag: QLearnAgent<S, A>, evs: seq<Event<S, A>>, stop: A): QLearnAgent<S, A>
    requires Playable(evs, stop)
    decreases |evs|
  {
    if |evs| == 0 then ag
    else
      assert Playable(evs[1..], stop) by {
        forall i | 0 <= i < |evs[1..]| && evs[1..][i].Move?
          ensures CanAct(evs[1..][i].obs, stop, evs[1..][i].draw, evs[1..][i].choice)
        {
          assert evs[1..][i] == evs[i + 1];
        }
      }
      Run(Step(ag, evs[0], stop), evs[1..], stop)
  }

  /** Number of games ended in evs. */
  function Games<S, A>(evs: seq<Event<S, A>>): nat {
    if |evs| == 0 then 0
    else (if evs[0].GameOver? then 1 else 0) + Games(evs[1..])
  }

  /** The game counter goes up by exactly the number of ended games; gamma and numTraining never change. */
  lemma {:induction false} RunCountsGames<S, A>(ag: QLearnAgent<S, A>, evs: seq<Event<S, A>>, stop: A)
    requires Playable(evs, stop)
    ensures Run(ag, evs, stop).episodesSoFar == ag.episodesSoFar + Games(evs)
    ensures Run(ag, evs, stop).numTraining == ag.numTraining
    ensures Run(ag, evs, stop).gamma == ag.gamma
    decreases |evs|
  {
    if |evs| > 0 {
      RunCountsGames(Step(ag, evs[0], stop), evs[1..], stop);
    }
  }

  /** Once training is over the agent stays frozen, whatever the engine does. */
  lemma {:induction false} RunKeepsFreezeInvariant<S, A>(ag: QLearnAgent<S, A>, evs: seq<Event<S, A>>, stop: A)
    requires Playable(evs, stop) && FreezeInvariant(ag)
    ensures FreezeInvariant(Run(ag, evs, stop))
    decreases |evs|
  {
    if |evs| > 0 {
      if evs[0].Move? {
        GetActionKeepsFreeze(ag, evs[0].obs, stop, evs[0].draw, evs[0].choice);
      }
      RunKeepsFreezeInvariant(Step(ag, evs[0], stop), evs[1..], stop);
    }
  }

  /** Nothing raises alpha or epsilon again once both are 0. */
  lemma {:induction false} RunKeepsFrozen<S, A>(ag: QLearnAgent<S, A>, evs: seq<Event<S, A>>, stop: A)
    requires Playable(evs, stop) && Frozen(ag)
    ensures Frozen(Run(ag, evs, stop))
    decreases |evs|
  {
    if |evs| > 0 {
      if evs[0].Move? {
        GetActionKeepsFreeze(ag, evs[0].obs, stop, evs[0].draw, evs[0].choice);
      } else {
        FinalKeepsFreeze(ag, evs[0].obs);
      }
      RunKeepsFrozen(Step(ag, evs[0], stop), evs[1..], stop);
    }
  }

  /**
   alpha and epsilon keep their values over any run that does not end the
   numTraining-th game: either the count stays below numTraining, or it had
   already reached it.
   */
  lemma {:induction false} RunKeepsRatesUntilTrainingEnds<S, A>(ag: QLearnAgent<S, A>, evs: seq<Event<S, A>>, stop: A)
    requires Playable(evs, stop)
    requires ag.episodesSoFar >= ag.numTraining || ag.episodesSoFar + Games(evs) < ag.numTraining
    ensures Run(ag, evs, stop).alpha == ag.alpha && Run(ag, evs, stop).epsilon == ag.epsilon
    decreases |evs|
  {
    if |evs| > 0 {
      var next := Step(ag, evs[0], stop);
      RunKeepsRatesUntilTrainingEnds(next, evs[1..], stop);
    }
  }

  /** A fresh agent with a positive numTraining is frozen after any run that ends numTraining games. */
  lemma TrainingEndsAfterNumTraining<S, A>(alpha: real, epsilon: real, gamma: real, numTraining: int,
                                           evs: seq<Event<S, A>>, stop: A)
    requires Playable(evs, stop) && 0 < numTraining <= Games(evs)
    ensures Frozen(Run(Init<S, A>(alpha, epsilon, gamma, numTraining), evs, stop))
  {
    var ag := Init<S, A>(alpha, epsilon, gamma, numTraining);
    RunCountsGames(ag, evs, stop);
    RunKeepsFreezeInvariant(ag, evs, stop);
  }

  /** A frozen agent never changes a value it sees in its table, whatever the engine does. */
  lemma {:induction false} FrozenRunLearnsNothing<S, A>(ag: QLearnAgent<S, A>, evs: seq<Event<S, A>>, stop: A, s: S, a: A)
    requires Playable(evs, stop) && Frozen(ag)
    ensures Lookup(Run(ag, evs, stop).qTable, s, a) == Lookup(ag.qTable, s, a)
    decreases |evs|
  {
    if |evs| > 0 {
      var next := Step(ag, evs[0], stop);
      var e := evs[0];
      if e.Move? {
        var legal := RemoveFirst(e.obs.legalActions, stop);
        AlphaZeroLearnsNothing(ag, e.obs.state, e.obs.score, legal, s, a);
        GrowsByZerosKeepsLookup(UpdateQTable(ag, e.obs.state, e.obs.score, legal).qTable, next.qTable);
        GetActionKeepsFreeze(ag, e.obs, stop, e.draw, e.choice);
      } else {
        FinalKeepsFreeze(ag, e.obs);
      }
      FrozenRunLearnsNothing(next, evs[1..], stop, s, a);
    }
  }
}
