/** The data preparation of the fitting script: every team name in the
    shots table gets an index in 1..n, the team and opponent columns are
    rewritten through that index, and the sampler's input gains the two
    counts n_teams and n_shots. The CSV is taken as already read. */
module Run {
  import Analysis

  /** One row of the shots table, reduced to the eleven columns that
      wrangle keeps. */
  datatype Shot = Shot(
    team: string, oppo: string,
    wait: real, time: real, home: real, neutral: real, shot: real,
    goal: real, ownGoal: real, penalty: real, state: real)

  /** The sampler's input: one list per kept column (team and oppo as
      indices) and the two derived counts. */
  datatype StanData = StanData(
    team: seq<int>, oppo: seq<int>,
    wait: seq<real>, time: seq<real>, home: seq<real>, neutral: seq<real>, shot: seq<real>,
    goal: seq<real>, ownGoal: seq<real>, penalty: seq<real>, state: seq<real>,
    nTeams: int, nShots: int)

  /** set(shots.team) | set(shots.oppo). */
  function TeamNames(shots: seq<Shot>): set<string>
  {
    (set r | r in shots :: r.team) + (set r | r in shots :: r.oppo)
  }

  predicate Distinct(order: seq<string>)
  {
    forall i, j :: 0 <= i < j < |order| ==> order[i] != order[j]
  }

  /** order lists each element of names exactly once: one possible
      iteration order of a Python set, which the language leaves open. */
  predicate Enumerates(order: seq<string>, names: set<string>)
  {
    Distinct(order) && (set x | x in order) == names
  }

  /** {name: idx + 1 for idx, name in enumerate(order)}. */
  function TeamMap(order: seq<string>): map<string, int>
    requires Distinct(order)
  {
    map k | 0 <= k < |order| :: order[k] := k + 1
  }

  /** list(map(team_map.__getitem__, names)): every name replaced by its
      index, in the same row order. */
  function Relabel(teamMap: map<string, int>, names: seq<string>): (r: seq<int>)
    requires forall k :: 0 <= k < |names| ==> names[k] in teamMap
    ensures |r| == |names|
    ensures forall k :: 0 <= k < |names| ==> r[k] == teamMap[names[k]]
  {
    seq(|names|, k requires 0 <= k < |names| => teamMap[names[k]])
  }

  /** Every relabelled entry is one of the map's indices, and through a map
      that gives distinct names distinct indices two rows get the same index
      exactly when they hold the same name. */
  lemma RelabelSameIndexIff(teamMap: map<string, int>, names: seq<string>)
    requires forall k :: 0 <= k < |names| ==> names[k] in teamMap
    ensures forall k :: 0 <= k < |names| ==> Relabel(teamMap, names)[k] in teamMap.Values
    ensures (forall x, y :: x in teamMap && y in teamMap && teamMap[x] == teamMap[y] ==> x == y) ==>
      forall k, l :: 0 <= k < |names| && 0 <= l < |names| ==>
        (Relabel(teamMap, names)[k] == Relabel(teamMap, names)[l] <==> names[k] == names[l])
  {
    var r := Relabel(teamMap, names);
    forall k | 0 <= k < |names| ensures r[k] in teamMap.Values {
      assert teamMap[names[k]] == r[k];
    }
  }

  /** shots.team as a list. */
  function TeamColumn(shots: seq<Shot>): (c: seq<string>)
    ensures |c| == |shots| && forall r :: 0 <= r < |shots| ==> c[r] == shots[r].team
  {
    seq(|shots|, r requires 0 <= r < |shots| => shots[r].team)
  }

  /** shots.oppo as a list. */
  function OppoColumn(shots: seq<Shot>): (c: seq<string>)
    ensures |c| == |shots| && forall r :: 0 <= r < |shots| ==> c[r] == shots[r].oppo
  {
    seq(|shots|, r requires 0 <= r < |shots| => shots[r].oppo)
  }

  /** wrangle, from the rows of the shots table and the order in which the
      set of team names happens to be enumerated. */
  function Wrangle(shots: seq<Shot>, order: seq<string>): (StanData, map<string, int>)
    requires Enumerates(order, TeamNames(shots))
  {
    var teamMap := TeamMap(order);
    var n := |shots|;
    NamesMapped(shots, order);
    var stanData := StanData(
      Relabel(teamMap, TeamColumn(shots)),
      Relabel(teamMap, OppoColumn(shots)),
      seq(n, r requires 0 <= r < n => shots[r].wait),
      seq(n, r requires 0 <= r < n => shots[r].time),
      seq(n, r requires 0 <= r < n => shots[r].home),
      seq(n, r requires 0 <= r < n => shots[r].neutral),
      seq(n, r requires 0 <= r < n => shots[r].shot),
      seq(n, r requires 0 <= r < n => shots[r].goal),
      seq(n, r requires 0 <= r < n => shots[r].ownGoal),
      seq(n, r requires 0 <= r < n => shots[r].penalty),
      seq(n, r requires 0 <= r < n => shots[r].state),
      |teamMap|, n);
    (stanData, teamMap)
  }

  /** A sequence without repetitions has as many elements as its set. */
  lemma {:induction false} DistinctCardinality(order: seq<string>)
    requires Distinct(order)
    ensures |set x | x in order| == |order|
  {
    if order != [] {
      var rest := order[1..];
      assert Distinct(rest);
      DistinctCardinality(rest);
      assert (set x | x in order) == (set x | x in rest) + {order[0]};
      assert order[0] !in (set x | x in rest);
    }
  }

  /** The k-th enumerated name is mapped to k + 1, and nothing else is
      mapped. */
  lemma TeamMapIndexes(order: seq<string>)
    requires Distinct(order)
    ensures forall x :: x in TeamMap(order) <==> x in order
    ensures forall k :: 0 <= k < |order| ==> TeamMap(order)[order[k]] == k + 1
  {
    var m := TeamMap(order);
    forall k | 0 <= k < |order| ensures order[k] in m && m[order[k]] == k + 1 {
    }
  }

  /** Every name in the team or oppo column is among the enumerated ones. */
  lemma NamesListed(shots: seq<Shot>, order: seq<string>)
    requires Enumerates(order, TeamNames(shots))
    ensures forall r :: 0 <= r < |shots| ==> shots[r].team in order && shots[r].oppo in order
  {
    forall r | 0 <= r < |shots| ensures shots[r].team in order && shots[r].oppo in order {
      assert shots[r].team in TeamNames(shots) && shots[r].oppo in TeamNames(shots);
    }
  }

  /** Every name in the team or oppo column has an index in the team map,
      so the lookups of wrangle never raise KeyError. */
  lemma NamesMapped(shots: seq<Shot>, order: seq<string>)
    requires Enumerates(order, TeamNames(shots))
    ensures forall k :: 0 <= k < |shots| ==> shots[k].team in TeamMap(order)
    ensures forall k :: 0 <= k < |shots| ==> shots[k].oppo in TeamMap(order)
  {
    NamesListed(shots, order);
    TeamMapIndexes(order);
  }

  /** Reading order at index - 1 undoes the team map. */
  lemma TeamMapInverse(order: seq<string>)
    requires Distinct(order)
    ensures forall x :: x in TeamMap(order) ==>
      1 <= TeamMap(order)[x] <= |order| && order[TeamMap(order)[x] - 1] == x
  {
    TeamMapIndexes(order);
    var m := TeamMap(order);
    forall x | x in m ensures 1 <= m[x] <= |order| && order[m[x] - 1] == x {
      var k :| 0 <= k < |order| && order[k] == x;
    }
  }

  /** The indices handed out are exactly 1..n. */
  lemma TeamMapValues(order: seq<string>)
    requires Distinct(order)
    ensures forall v :: v in TeamMap(order).Values <==> 1 <= v <= |order|
  {
    var m := TeamMap(order);
    TeamMapIndexes(order);
    TeamMapInverse(order);
    forall v | 1 <= v <= |order| ensures v in m.Values {
      assert m[order[v - 1]] == v;
    }
  }

  /** The team map is a bijection from the enumerated names onto 1..n. */
  lemma TeamMapBijection(order: seq<string>)
    requires Distinct(order)
    ensures TeamMap(order).Keys == set x | x in order
    ensures forall v :: v in TeamMap(order).Values <==> 1 <= v <= |order|
    ensures forall x, y :: x in TeamMap(order) && y in TeamMap(order) ==>
      (TeamMap(order)[x] == TeamMap(order)[y] <==> x == y)
    ensures |TeamMap(order)| == |order|
  {
    var m := TeamMap(order);
    TeamMapIndexes(order);
    TeamMapInverse(order);
    TeamMapValues(order);
    forall x, y | x in m && y in m && m[x] == m[y] ensures x == y {
      assert order[m[x] - 1] == x && order[m[y] - 1] == y;
    }
    assert m.Keys == set x | x in order;
    DistinctCardinality(order);
    assert |m| == |m.Keys|;
  }

  /** The map wrangle returns: its keys are exactly the names found in the
      team or oppo column, its values exactly 1..n_teams, each used once, and
      n_teams is the number of distinct names. */
  lemma WrangleTeamMap(shots: seq<Shot>, order: seq<string>)
    requires Enumerates(order, TeamNames(shots))
    ensures Wrangle(shots, order).1.Keys == TeamNames(shots)
    ensures forall v :: v in Wrangle(shots, order).1.Values <==> 1 <= v <= Wrangle(shots, order).0.nTeams
    ensures forall x, y :: x in Wrangle(shots, order).1 && y in Wrangle(shots, order).1 ==>
      (Wrangle(shots, order).1[x] == Wrangle(shots, order).1[y] <==> x == y)
    ensures Wrangle(shots, order).0.nTeams == |TeamNames(shots)|
  {
    TeamMapBijection(order);
    DistinctCardinality(order);
  }

  /** The columns wrangle produces: every column keeps the table's length
      and row order, team and oppo hold the map's index of the row's name,
      each in 1..n_teams, the other nine columns pass through unchanged and
      n_shots is the number of rows. */
  lemma WrangleColumns(shots: seq<Shot>, order: seq<string>)
    requires Enumerates(order, TeamNames(shots))
    ensures var (d, m) := Wrangle(shots, order);
      && d.nShots == |shots|
      && |d.team| == |d.oppo| == |d.wait| == |d.time| == |d.home| == |d.neutral| == |shots|
      && |d.shot| == |d.goal| == |d.ownGoal| == |d.penalty| == |d.state| == |shots|
      && forall r :: 0 <= r < |shots| ==>
        && shots[r].team in m && d.team[r] == m[shots[r].team]
        && shots[r].oppo in m && d.oppo[r] == m[shots[r].oppo]
        && 1 <= d.team[r] <= d.nTeams && 1 <= d.oppo[r] <= d.nTeams
        && d.wait[r] == shots[r].wait && d.time[r] == shots[r].time
        && d.home[r] == shots[r].home && d.neutral[r] == shots[r].neutral
        && d.shot[r] == shots[r].shot && d.goal[r] == shots[r].goal
        && d.ownGoal[r] == shots[r].ownGoal && d.penalty[r] == shots[r].penalty
        && d.state[r] == shots[r].state
  {
    TeamMapBijection(order);
    TeamMapIndexes(order);
    NamesListed(shots, order);
  }

  /** Row r of the index columns holds the map's index of the row's names. */
  lemma WrangleRow(shots: seq<Shot>, order: seq<string>, r: nat)
    requires Enumerates(order, TeamNames(shots))
    requires r < |shots|
    ensures shots[r].team in TeamMap(order) && shots[r].oppo in TeamMap(order)
    ensures Wrangle(shots, order).0.team[r] == TeamMap(order)[shots[r].team]
    ensures Wrangle(shots, order).0.oppo[r] == TeamMap(order)[shots[r].oppo]
  {
    NamesMapped(shots, order);
  }

  /** Decoding an index through the enumeration gives back the row's name:
      team_map is inverted by order[index - 1]. */
  lemma WrangleDecode(shots: seq<Shot>, order: seq<string>, r: nat)
    requires Enumerates(order, TeamNames(shots))
    requires r < |shots|
    ensures 1 <= Wrangle(shots, order).0.team[r] <= |order|
    ensures order[Wrangle(shots, order).0.team[r] - 1] == shots[r].team
    ensures 1 <= Wrangle(shots, order).0.oppo[r] <= |order|
    ensures order[Wrangle(shots, order).0.oppo[r] - 1] == shots[r].oppo
  {
    WrangleRow(shots, order, r);
    TeamMapInverse(order);
  }

  /** Two rows carry the same index exactly when they carry the same name,
      within a column and across the team and oppo columns. */
  lemma WrangleSameIndexIff(shots: seq<Shot>, order: seq<string>, r: nat, s: nat)
    requires Enumerates(order, TeamNames(shots))
    requires r < |shots| && s < |shots|
    ensures Wrangle(shots, order).0.team[r] == Wrangle(shots, order).0.team[s]
        <==> shots[r].team == shots[s].team
    ensures Wrangle(shots, order).0.oppo[r] == Wrangle(shots, order).0.oppo[s]
        <==> shots[r].oppo == shots[s].oppo
    ensures Wrangle(shots, order).0.team[r] == Wrangle(shots, order).0.oppo[s]
        <==> shots[r].team == shots[s].oppo
  {
    WrangleDecode(shots, order, r);
    WrangleDecode(shots, order, s);
    WrangleRow(shots, order, r);
    WrangleRow(shots, order, s);
  }

  /** Whichever order the set of names is enumerated in, wrangle gives the
      same counts and pass-through columns, and its index columns relate any
      two rows the same way: the indices differ only by a renaming. */
  lemma WrangleOrderIndependent(shots: seq<Shot>, o1: seq<string>, o2: seq<string>, r: nat, s: nat)
    requires Enumerates(o1, TeamNames(shots)) && Enumerates(o2, TeamNames(shots))
    requires r < |shots| && s < |shots|
    ensures var d1 := Wrangle(shots, o1).0;
      var d2 := Wrangle(shots, o2).0;
      && d1.nTeams == d2.nTeams && d1.nShots == d2.nShots
      && d1.wait == d2.wait && d1.time == d2.time && d1.home == d2.home
      && d1.neutral == d2.neutral && d1.shot == d2.shot && d1.goal == d2.goal
      && d1.ownGoal == d2.ownGoal && d1.penalty == d2.penalty && d1.state == d2.state
      && (d1.team[r] == d1.team[s] <==> d2.team[r] == d2.team[s])
      && (d1.oppo[r] == d1.oppo[s] <==> d2.oppo[r] == d2.oppo[s])
      && (d1.team[r] == d1.oppo[s] <==> d2.team[r] == d2.oppo[s])
  {
    WrangleTeamMap(shots, o1);
    WrangleTeamMap(shots, o2);
    WrangleColumns(shots, o1);
    WrangleColumns(shots, o2);
    WrangleSameIndexIff(shots, o1, r, s);
    WrangleSameIndexIff(shots, o2, r, s);
  }

  /** graph calls hdi without a width, so with 0.5: on any non-empty column
      of draws that yields an interval whose bounds are draws in order. */
  lemma DefaultWidthInterval(vector: seq<real>)
    requires |vector| > 0
    ensures Analysis.Hdi(vector, Analysis.DefaultWidth).Ok?
    ensures Analysis.Hdi(vector, Analysis.DefaultWidth).value.0
         <= Analysis.Hdi(vector, Analysis.DefaultWidth).value.1
  {
    Analysis.HdiDefinedIff(vector, Analysis.DefaultWidth);
    Analysis.HdiOrdered(vector, Analysis.DefaultWidth);
  }
}
