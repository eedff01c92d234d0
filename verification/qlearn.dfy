/**
 The Q-learning Pacman agent: its parameters, the Q-table, the remembered
 previous transition, and the two callbacks the game engine makes, one per
 move (GetAction) and one at the end of every game (Final).

 The game state is an opaque value S used directly as a table key; the engine
 supplies, through an Observation, the state, its legal actions and its score.
 Randomness is passed in: `draw` is the uniform number in [0, 1] compared with
 epsilon, and `choice` is the index the random choice among legal moves picks.
 */
module QLearn {
  import opened QTable
  import opened Maximum

  datatype Option<T> = None | Some(value: T)

  /** The previous state, action and score, remembered for the next update. */
  datatype Transition<S, A> = Transition(state: S, action: A, score: real)

  /** What the engine hands to a callback: the state, its legal actions in order, and the score. */
  datatype Observation<S, A> = Observation(state: S, legalActions: seq<A>, score: real)

  datatype QLearnAgent<S(==), A(==)> = QLearnAgent(
    alpha: real,            // learning rate
    epsilon: real,          // exploration rate
    gamma: real,            // discount factor
    numTraining: int,       // number of training episodes
    episodesSoFar: nat,     // games played so far
    qTable: Table<S, A>,
    prev: Option<Transition<S, A>>)

  const DefaultAlpha: real := 0.2
  const DefaultEpsilon: real := 0.05
  const DefaultGamma: real := 0.8
  const DefaultNumTraining: int := 10

  /** Learning is switched off: no table value changes and no random exploration above a zero draw. */
  predicate Frozen<S(==), A(==)>(ag: QLearnAgent<S, A>) {
    ag.alpha == 0.0 && ag.epsilon == 0.0
  }

  /** Once numTraining (a positive count) episodes have been played, the agent is frozen. */
  predicate FreezeInvariant<S(==), A(==)>(ag: QLearnAgent<S, A>) {
    0 < ag.numTraining <= ag.episodesSoFar ==> Frozen(ag)
  }

  /** A fresh agent: given parameters, no games played, an empty table and no previous transition. */
  function Init<S(==), A(==)>(alpha: real, epsilon: real, gamma: real, numTraining: int): (ag: QLearnAgent<S, A>)
    ensures ag.alpha == alpha && ag.epsilon == epsilon && ag.gamma == gamma
    ensures ag.numTraining == numTraining && ag.episodesSoFar == 0
    ensures ag.prev.None?
    ensures ag.qTable == map[]
    ensures FreezeInvariant(ag)
  {
    QLearnAgent(alpha, epsilon, gamma, numTraining, 0, map[], None)
  }

  /** The agent built with the constructor's default arguments. */
  function InitDefault<S(==), A(==)>(): (ag: QLearnAgent<S, A>)
    ensures ag.alpha == 0.2 && ag.epsilon == 0.05 && ag.gamma == 0.8 && ag.numTraining == 10
    ensures ag == Init(DefaultAlpha, DefaultEpsilon, DefaultGamma, DefaultNumTraining)
  {
    Init(DefaultAlpha, DefaultEpsilon, DefaultGamma, DefaultNumTraining)
  }

  function IncrementEpisodesSoFar<S(==), A(==)>(ag: QLearnAgent<S, A>): (r: QLearnAgent<S, A>)
    ensures r.episodesSoFar == ag.episodesSoFar + 1
    ensures r.(episodesSoFar := ag.episodesSoFar) == ag
  {
    ag.(episodesSoFar := ag.episodesSoFar + 1)
  }

  function SetAlpha<S(==), A(==)>(ag: QLearnAgent<S, A>, value: real): (r: QLearnAgent<S, A>)
    ensures r.alpha == value
    ensures r.(alpha := ag.alpha) == ag
  {
    ag.(alpha := value)
  }

  function SetEpsilon<S(==), A(==)>(ag: QLearnAgent<S, A>, value: real): (r: QLearnAgent<S, A>)
    ensures r.epsilon == value
    ensures r.(epsilon := ag.epsilon) == ag
  {
    ag.(epsilon := value)
  }

  /** Position of the first occurrence of x in xs. */
  function FirstIndex<A(==)>(xs: seq<A>, x: A): (i: nat)
    requires x in xs
    ensures i < |xs| && xs[i] == x && x !in xs[..i]
  {
    if xs[0] == x then 0
    else
      assert x in xs[1..];
      var j := FirstIndex(xs[1..], x);
      assert xs[..j + 1] == [xs[0]] + xs[1..][..j];
      1 + j
  }

  /** Python's `list.remove` behind a membership test: drop the first occurrence of x, if any. */
  function RemoveFirst<A(==)>(xs: seq<A>, x: A): (r: seq<A>)
    ensures multiset(r) == multiset(xs) - multiset{x}
    ensures x !in xs ==> r == xs
    ensures x in xs ==> exists i :: 0 <= i < |xs| && xs[i] == x && x !in xs[..i] && r == xs[..i] + xs[i + 1..]
  {
    if x !in xs then xs
    else
      var i := FirstIndex(xs, x);
      assert xs == xs[..i] + [x] + xs[i + 1..];
      xs[..i] + xs[i + 1..]
  }

  /** i is the first position of `legal` whose value at s is maximal over `legal`. */
  ghost predicate IsFirstBest<S, A>(q: Table<S, A>, s: S, legal: seq<A>, i: int) {
    && 0 <= i < |legal|
    && (forall j :: 0 <= j < |legal| ==> Lookup(q, s, legal[j]) <= Lookup(q, s, legal[i]))
    && (forall j :: 0 <= j < i ==> Lookup(q, s, legal[j]) < Lookup(q, s, legal[i]))
  }

  /**
   Greedy selection: reads the value of every legal action at s and returns the
   first one of maximal value. Reading inserts missing keys at 0.
   */
  function GetActionFromQTable<S(==), A(==)>(q: Table<S, A>, s: S, legal: seq<A>): (r: (A, Table<S, A>))
    requires |legal| > 0
    ensures r.0 in legal
    ensures forall a :: a in legal ==> Lookup(q, s, a) <= Lookup(q, s, r.0)
    ensures exists i :: IsFirstBest(q, s, legal, i) && legal[i] == r.0
    ensures r.1.Keys == q.Keys + Row(s, legal)
    ensures GrowsByZeros(q, r.1)
  {
    var (qVals, q') := ReadAll(q, s, legal);
    var i := ArgMax(qVals);
    assert IsFirstBest(q, s, legal, i);
    (legal[i], q')
  }

  /** The tie-break is deterministic: greedy selection returns the action at the first best position. */
  lemma GreedyPicksFirstBest<S, A>(q: Table<S, A>, s: S, legal: seq<A>, i: int)
    requires IsFirstBest(q, s, legal, i)
    ensures GetActionFromQTable(q, s, legal).0 == legal[i]
  {
    var qVals := ReadAll(q, s, legal).0;
    assert IsFirstMax(qVals, i);
    ArgMaxUnique(qVals, i);
  }

  /** The future term of the backup: 0 without successor actions, else the largest value over `legal` at s. */
  function MaxNext<S(==), A(==)>(q: Table<S, A>, s: S, legal: seq<A>): (m: real)
    ensures |legal| == 0 ==> m == 0.0
    ensures forall a :: a in legal ==> Lookup(q, s, a) <= m
    ensures |legal| > 0 ==> exists a :: a in legal && Lookup(q, s, a) == m
  {
    if |legal| == 0 then 0.0
    else
      var qVals := ReadAll(q, s, legal).0;
      var j := ArgMax(qVals);
      assert legal[j] in legal && Lookup(q, s, legal[j]) == Max(qVals);
      Max(qVals)
  }

  /** The Q-learning backup: blend the old estimate with reward plus discounted future value. */
  function Backup(prior: real, alpha: real, gamma: real, reward: real, maxNext: real): real {
    prior * (1.0 - alpha) + alpha * (reward + gamma * maxNext)
  }

  /**
   The temporal-difference update for the remembered transition (s0, a0, score0),
   seen from state s with score `score` and successor actions `legal`. Nothing
   happens when no transition is remembered, which is only before the agent's
   first move. Otherwise (s0, a0) gets the backup of its old value; every other
   change is a key of the scanned row inserted at 0.
   */
  function UpdateQTable<S(==), A(==)>(ag: QLearnAgent<S, A>, s: S, score: real, legal: seq<A>): (r: QLearnAgent<S, A>)
    ensures r.(qTable := ag.qTable) == ag
    ensures ag.prev.None? ==> r.qTable == ag.qTable
    ensures ag.prev.Some? ==>
      var p := ag.prev.value;
      && (p.state, p.action) in r.qTable
      && r.qTable[(p.state, p.action)]
         == Backup(Lookup(ag.qTable, p.state, p.action), ag.alpha, ag.gamma, score - p.score, MaxNext(ag.qTable, s, legal))
      && r.qTable.Keys == ag.qTable.Keys + Row(s, legal) + {(p.state, p.action)}
      && (forall k :: k in r.qTable && k != (p.state, p.action) ==>
            r.qTable[k] == if k in ag.qTable then ag.qTable[k] else 0.0)
  {
    match ag.prev
    case None => ag
    case Some(p) =>
      var (qVals, q1) := ReadAll(ag.qTable, s, legal);
      var maxQVal := if |legal| == 0 then 0.0 else Max(qVals);
      var reward := score - p.score;
      var (prior, q2) := GetQValue(q1, p.state, p.action);
      GrowsByZerosKeepsLookup(ag.qTable, q1);
      ag.(qTable := q2[(p.state, p.action) := Backup(prior, ag.alpha, ag.gamma, reward, maxQVal)])
  }

  /** Seen through Lookup, an update changes at most the entry of the remembered transition. */
  lemma UpdateChangesOnlyPrevEntry<S, A>(ag: QLearnAgent<S, A>, s: S, score: real, legal: seq<A>, s': S, a': A)
    requires ag.prev.None? || (s', a') != (ag.prev.value.state, ag.prev.value.action)
    ensures Lookup(UpdateQTable(ag, s, score, legal).qTable, s', a') == Lookup(ag.qTable, s', a')
  {
  }

  /** With learning rate 0 an update leaves every value the agent sees as it was. */
  lemma AlphaZeroLearnsNothing<S, A>(ag: QLearnAgent<S, A>, s: S, score: real, legal: seq<A>, s': S, a': A)
    requires ag.alpha == 0.0
    ensures Lookup(UpdateQTable(ag, s, score, legal).qTable, s', a') == Lookup(ag.qTable, s', a')
  {
    if ag.prev.Some? && (s', a') != (ag.prev.value.state, ag.prev.value.action) {
      UpdateChangesOnlyPrevEntry(ag, s, score, legal, s', a');
    }
  }

  /** GetAction's requirements on the engine and on the random draws. */
  predicate CanAct<S, A(==)>(obs: Observation<S, A>, stop: A, draw: real, choice: nat) {
    0.0 <= draw <= 1.0 && choice < |RemoveFirst(obs.legalActions, stop)|
  }

  /**
   The per-move callback. STOP is removed from the legal actions, the previous
   transition is learned from, and an action is picked: greedily when the draw
   exceeds epsilon, else the randomly chosen one. The pick, with the current
   state and score, becomes the remembered transition.
   The source raises when no action but STOP is legal, hence the requirement.
   */
  function GetAction<S(==), A(==)>(ag: QLearnAgent<S, A>, obs: Observation<S, A>, stop: A, draw: real, choice: nat)
    : (r: (QLearnAgent<S, A>, A))
    requires CanAct(obs, stop, draw, choice)
    ensures r.1 in RemoveFirst(obs.legalActions, stop)
    ensures r.1 in obs.legalActions
    ensures multiset(obs.legalActions)[stop] <= 1 ==> r.1 != stop
    ensures r.0.prev == Some(Transition(obs.state, r.1, obs.score))
    ensures r.0.(qTable := ag.qTable, prev := ag.prev) == ag
    ensures draw <= ag.epsilon ==> r.1 == RemoveFirst(obs.legalActions, stop)[choice]
    ensures draw > ag.epsilon ==>
      var legal := RemoveFirst(obs.legalActions, stop);
      var u := UpdateQTable(ag, obs.state, obs.score, legal).qTable;
      exists i :: IsFirstBest(u, obs.state, legal, i) && legal[i] == r.1
    ensures GrowsByZeros(UpdateQTable(ag, obs.state, obs.score, RemoveFirst(obs.legalActions, stop)).qTable, r.0.qTable)
    ensures draw <= ag.epsilon ==>
      r.0.qTable == UpdateQTable(ag, obs.state, obs.score, RemoveFirst(obs.legalActions, stop)).qTable
    ensures draw > ag.epsilon ==>
      var u := UpdateQTable(ag, obs.state, obs.score, RemoveFirst(obs.legalActions, stop)).qTable;
      r.0.qTable.Keys == u.Keys + Row(obs.state, RemoveFirst(obs.legalActions, stop))
  {
    var legal := RemoveFirst(obs.legalActions, stop);
    var updated := UpdateQTable(ag, obs.state, obs.score, legal);
    var (pick, q) :=
      if draw > ag.epsilon then GetActionFromQTable(updated.qTable, obs.state, legal)
      else (legal[choice], updated.qTable);
    assert pick in legal;
    assert multiset(legal)[pick] > 0;
    (updated.(qTable := q, prev := Some(Transition(obs.state, pick, obs.score))), pick)
  }

  /**
   The end-of-game callback: a last update with no successor actions, then the
   game counter goes up, and when it reaches numTraining alpha and epsilon are
   set to 0. The remembered transition is kept.
   */
  function Final<S(==), A(==)>(ag: QLearnAgent<S, A>, obs: Observation<S, A>): (r: QLearnAgent<S, A>)
    ensures r.episodesSoFar == ag.episodesSoFar + 1
    ensures r.episodesSoFar == ag.numTraining ==> Frozen(r)
    ensures r.episodesSoFar != ag.numTraining ==> r.alpha == ag.alpha && r.epsilon == ag.epsilon
    ensures r.gamma == ag.gamma && r.numTraining == ag.numTraining && r.prev == ag.prev
    ensures ag.prev.None? ==> r.qTable == ag.qTable
    ensures ag.prev.Some? ==>
      var p := ag.prev.value;
      Lookup(r.qTable, p.state, p.action)
        == Lookup(ag.qTable, p.state, p.action) * (1.0 - ag.alpha) + ag.alpha * (obs.score - p.score)
    ensures ag.prev.Some? ==>
      var key := (ag.prev.value.state, ag.prev.value.action);
      && r.qTable.Keys == ag.qTable.Keys + {key}
      && forall k :: k in ag.qTable && k != key ==> r.qTable[k] == ag.qTable[k]
    ensures FreezeInvariant(ag) ==> FreezeInvariant(r)
  {
    var updated := UpdateQTable(ag, obs.state, obs.score, []);
    var counted := IncrementEpisodesSoFar(updated);
    if counted.episodesSoFar == counted.numTraining then SetEpsilon(SetAlpha(counted, 0.0), 0.0)
    else counted
  }

  /** A frozen agent stays frozen through a move. */
  lemma GetActionKeepsFreeze<S, A>(ag: QLearnAgent<S, A>, obs: Observation<S, A>, stop: A, draw: real, choice: nat)
    requires CanAct(obs, stop, draw, choice)
    ensures Frozen(ag) ==> Frozen(GetAction(ag, obs, stop, draw, choice).0)
    ensures FreezeInvariant(ag) ==> FreezeInvariant(GetAction(ag, obs, stop, draw, choice).0)
  {
  }

  /** A frozen agent stays frozen through the end of a game. */
  lemma FinalKeepsFreeze<S, A>(ag: QLearnAgent<S, A>, obs: Observation<S, A>)
    requires Frozen(ag)
    ensures Frozen(Final(ag, obs))
  {
  }

  /** With epsilon 0 any positive draw exceeds it, so a frozen agent picks greedily. */
  lemma FrozenPicksGreedily<S, A>(ag: QLearnAgent<S, A>, obs: Observation<S, A>, stop: A, draw: real, choice: nat)
    requires CanAct(obs, stop, draw, choice) && Frozen(ag) && draw > 0.0
    ensures
      var legal := RemoveFirst(obs.legalActions, stop);
      GetAction(ag, obs, stop, draw, choice).1 == GetActionFromQTable(ag.qTable, obs.state, legal).0
  {
    var legal := RemoveFirst(obs.legalActions, stop);
    var u := UpdateQTable(ag, obs.state, obs.score, legal).qTable;
    var pick := GetAction(ag, obs, stop, draw, choice).1;
    var i :| IsFirstBest(u, obs.state, legal, i) && legal[i] == pick;
    forall j | 0 <= j < |legal|
      ensures Lookup(u, obs.state, legal[j]) == Lookup(ag.qTable, obs.state, legal[j])
    {
      AlphaZeroLearnsNothing(ag, obs.state, obs.score, legal, obs.state, legal[j]);
    }
    assert IsFirstBest(ag.qTable, obs.state, legal, i);
    GreedyPicksFirstBest(ag.qTable, obs.state, legal, i);
  }

  /** The test is strict: a draw of exactly 0 takes the random branch even with epsilon 0. */
  lemma ZeroDrawExploresEvenWhenFrozen<S, A>(ag: QLearnAgent<S, A>, obs: Observation<S, A>, stop: A, choice: nat)
    requires CanAct(obs, stop, 0.0, choice) && Frozen(ag)
    ensures GetAction(ag, obs, stop, 0.0, choice).1 == RemoveFirst(obs.legalActions, stop)[choice]
  {
  }
}
