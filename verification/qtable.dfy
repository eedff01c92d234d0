/**
 The Q-table of the learning agent: a finite map from (state, action) pairs to
 learned values. Reading a key that is absent inserts it with value 0, so every
 read may grow the table, but no read ever changes a stored value.
 */
module QTable {

  /** The table itself; states and actions only need equality. */
  type Table<S(==), A(==)> = map<(S, A), real>

  /** The value the agent sees for (s, a): the stored one, or 0 when the key is absent. */
  function Lookup<S(==), A(==)>(q: Table<S, A>, s: S, a: A): real {
    if (s, a) in q then q[(s, a)] else 0.0
  }

  /** The keys a scan of `legal` at state `s` touches. */
  function Row<S(==), A(==)>(s: S, legal: seq<A>): set<(S, A)> {
    set a | a in legal :: (s, a)
  }

  /** q' is q with some keys inserted at 0 and no stored value changed. */
  ghost predicate GrowsByZeros<S, A>(q: Table<S, A>, q': Table<S, A>) {
    && q.Keys <= q'.Keys
    && (forall k :: k in q ==> q'[k] == q[k])
    && (forall k :: k in q' && k !in q ==> q'[k] == 0.0)
  }

  /** Inserting zeros is invisible through Lookup. */
  lemma GrowsByZerosKeepsLookup<S, A>(q: Table<S, A>, q': Table<S, A>)
    requires GrowsByZeros(q, q')
    ensures forall s, a :: Lookup(q', s, a) == Lookup(q, s, a)
  {
  }

  lemma GrowsByZerosTransitive<S, A>(q: Table<S, A>, q': Table<S, A>, q'': Table<S, A>)
    requires GrowsByZeros(q, q') && GrowsByZeros(q', q'')
    ensures GrowsByZeros(q, q'')
  {
  }

  /**
   Reads the value of (s, a). A missing key reads as 0 and is inserted with
   value 0; a present key keeps its value and leaves the table as it was.
   */
  function GetQValue<S(==), A(==)>(q: Table<S, A>, s: S, a: A): (r: (real, Table<S, A>))
    ensures r.0 == Lookup(q, s, a)
    ensures (s, a) !in q ==> r.0 == 0.0
    ensures (s, a) in q ==> r.1 == q
    ensures (s, a) in r.1 && r.1[(s, a)] == r.0
    ensures r.1.Keys == q.Keys + {(s, a)}
    ensures GrowsByZeros(q, r.1)
  {
    if (s, a) !in q then (0.0, q[(s, a) := 0.0]) else (q[(s, a)], q)
  }

  lemma RowCons<S, A>(s: S, legal: seq<A>)
    requires |legal| > 0
    ensures Row(s, legal) == {(s, legal[0])} + Row(s, legal[1..])
  {
    forall k | k in Row(s, legal)
      ensures k in {(s, legal[0])} + Row(s, legal[1..])
    {
      var a :| a in legal && k == (s, a);
      if a != legal[0] {
        var i :| 0 <= i < |legal| && legal[i] == a;
        assert legal[1..][i - 1] == a;
      }
    }
  }

  /**
   The loop that reads the value of every action of `legal` at state `s`, in
   order, through GetQValue: it yields the values the agent sees, one per
   action, and inserts every missing key of the row at 0.
   */
  function ReadAll<S(==), A(==)>(q: Table<S, A>, s: S, legal: seq<A>): (r: (seq<real>, Table<S, A>))
    ensures |r.0| == |legal|
    ensures forall i :: 0 <= i < |legal| ==> r.0[i] == Lookup(q, s, legal[i])
    ensures r.1.Keys == q.Keys + Row(s, legal)
    ensures GrowsByZeros(q, r.1)
    decreases |legal|
  {
    if |legal| == 0 then ([], q)
    else
      var (v, q1) := GetQValue(q, s, legal[0]);
      var (vs, q2) := ReadAll(q1, s, legal[1..]);
      GrowsByZerosKeepsLookup(q, q1);
      GrowsByZerosTransitive(q, q1, q2);
      RowCons(s, legal);
      ([v] + vs, q2)
  }
}
