/** `add_goals`: for every candidate-goal line of a recogniser reply, the
    number after `': '` is read, and for every tracked goal whose name
    occurs in the line that number is appended to the goal's score list. A
    NaN is recorded as `-1`. */
module Scores {
  import opened Common
  import opened Text

  /** A score as `float()` would return it: a number (kept as the text
      `float()` read it from), or NaN; `MinusOne` is the sentinel the
      script stores in place of NaN. */
  datatype Score = Number(text: string) | NaN | MinusOne

  /** The spellings `float()` reads as NaN (any case, optional sign,
      surrounding white space). */
  predicate IsNaNText(field: string)
  {
    var l := Lower(Strip(field));
    l == "nan" || l == "+nan" || l == "-nan"
  }

  function ParseFloat(field: string): (s: Score)
    ensures s.NaN? <==> IsNaNText(field)
    ensures !s.MinusOne?
  {
    if IsNaNText(field) then NaN else Number(Strip(field))
  }

  /** What is appended for a parsed score. */
  function Recorded(s: Score): (r: Score)
    ensures !r.NaN?
    ensures s.NaN? ==> r == MinusOne
    ensures !s.NaN? ==> r == s
  {
    if s.NaN? then MinusOne else s
  }

  /** `float(candidate.split(': ')[1])`; `IndexError` when the line holds no
      `': '`. */
  function ScoreOf(candidate: string): (r: Outcome<Score>)
    ensures r.Raised? <==> !Contains(candidate, ": ")
    ensures r.Raised? ==> r.error == IndexError
  {
    match SecondField(candidate, ": ")
    case Raised(e) =>
      FindContains(candidate, ": ");
      Raised(e)
    case Ok(field) =>
      FindContains(candidate, ": ");
      Ok(ParseFloat(field))
  }

  /** `Contains` agrees with `Find`. */
  lemma {:induction false} FindContains(s: string, sub: string)
    ensures Contains(s, sub) <==> Find(s, sub).Some?
    decreases |s|
  {
    if !(sub <= s) && s != [] {
      FindContains(s[1..], sub);
    }
  }

  type Table = map<string, seq<Score>>

  /** `goal_scores.get(goal, [])`. */
  function ValueOf(t: Table, g: string): seq<Score>
  {
    if g in t then t[g] else []
  }

  /** One append: `goal_scores[goal].append(score)` or a new list. */
  function Append(t: Table, g: string, s: Score): (r: Table)
    ensures r.Keys == t.Keys + {g}
    ensures ValueOf(r, g) == ValueOf(t, g) + [s]
    ensures forall h :: h != g ==> ValueOf(r, h) == ValueOf(t, h)
  {
    t[g := ValueOf(t, g) + [s]]
  }

  /** The inner loop over the tracked goals for one candidate line. */
  function AddCandidate(t: Table, goals: seq<string>, candidate: string, s: Score): Table
  {
    if goals == [] then t
    else
      var t' := AddCandidate(t, goals[..|goals| - 1], candidate, s);
      var g := goals[|goals| - 1];
      if Contains(candidate, g) then Append(t', g, s) else t'
  }

  datatype Status = Done | Failed(error: Error)

  /** `add_goals(i, goal_scores, candidates, goals)`: the table afterwards
      (appends made before an exception are kept, since the table is
      updated in place) and whether the call returned or raised. */
  function AddGoalsSpec(t: Table, candidates: seq<string>, goals: seq<string>): (Table, Status)
  {
    if candidates == [] then (t, Done)
    else
      var (t', st) := AddGoalsSpec(t, candidates[..|candidates| - 1], goals);
      var c := candidates[|candidates| - 1];
      if st.Failed? then (t', st)
      else match ScoreOf(c)
        case Raised(e) => (t', Failed(e))
        case Ok(s) => (AddCandidate(t', goals, c, Recorded(s)), Done)
  }

  function Repeat(s: Score, n: nat): (r: seq<Score>)
    ensures |r| == n && forall i :: 0 <= i < n ==> r[i] == s
  {
    seq(n, _ => s)
  }

  /** How many times a line's score is appended to goal `g`'s list. */
  function Hits(goals: seq<string>, candidate: string, g: string): nat
  {
    if Contains(candidate, g) then multiset(goals)[g] else 0
  }

  /** An independent, per-goal account of the scores a goal receives from
      `candidates`: for each line in order, its score once per occurrence
      of the goal in `goals` when the goal's name occurs in the line. */
  function Column(candidates: seq<string>, goals: seq<string>, g: string): seq<Score>
  {
    if candidates == [] then []
    else
      var c := candidates[|candidates| - 1];
      Column(candidates[..|candidates| - 1], goals, g)
      + match ScoreOf(c)
        case Raised(_) => []
        case Ok(s) => Repeat(Recorded(s), Hits(goals, c, g))
  }

  /** One candidate line: goal `g` gets the score once per time it is
      listed, if its name occurs in the line, and nothing otherwise. */
  lemma {:induction false} AddCandidateValue(t: Table, goals: seq<string>, candidate: string, s: Score, g: string)
    ensures ValueOf(AddCandidate(t, goals, candidate, s), g) == ValueOf(t, g) + Repeat(s, Hits(goals, candidate, g))
  {
    if goals != [] {
      var front := goals[..|goals| - 1];
      var last := goals[|goals| - 1];
      assert goals == front + [last];
      assert multiset(goals) == multiset(front) + multiset{last};
      AddCandidateValue(t, front, candidate, s, g);
      var t' := AddCandidate(t, front, candidate, s);
      var n := Hits(front, candidate, g);
      if g == last && Contains(candidate, g) {
        assert ValueOf(AddCandidate(t, goals, candidate, s), g) == ValueOf(t', g) + [s];
        assert Hits(goals, candidate, g) == n + 1;
        assert Repeat(s, n) + [s] == Repeat(s, n + 1);
        assert (ValueOf(t, g) + Repeat(s, n)) + [s] == ValueOf(t, g) + (Repeat(s, n) + [s]);
      } else {
        assert ValueOf(AddCandidate(t, goals, candidate, s), g) == ValueOf(t', g);
        assert Hits(goals, candidate, g) == n;
      }
    }
  }

  /** One candidate line adds keys only for tracked goals and removes none. */
  lemma {:induction false} AddCandidateKeys(t: Table, goals: seq<string>, candidate: string, s: Score)
    ensures t.Keys <= AddCandidate(t, goals, candidate, s).Keys <= t.Keys + set g | g in goals
  {
    if goals != [] {
      AddCandidateKeys(t, goals[..|goals| - 1], candidate, s);
    }
  }

  /** Per goal, `add_goals` over a whole reply appends exactly the goal's
      column: one score per (line, listed goal) match, in line order, NaN as
      `-1`. */
  lemma {:induction false} AddGoalsColumn(t: Table, candidates: seq<string>, goals: seq<string>, g: string)
    ensures AddGoalsSpec(t, candidates, goals).1.Done? ==>
              ValueOf(AddGoalsSpec(t, candidates, goals).0, g) == ValueOf(t, g) + Column(candidates, goals, g)
  {
    if candidates != [] {
      var front := candidates[..|candidates| - 1];
      var c := candidates[|candidates| - 1];
      AddGoalsColumn(t, front, goals, g);
      var (t', st) := AddGoalsSpec(t, front, goals);
      if st.Done? && ScoreOf(c).Ok? {
        AddCandidateValue(t', goals, c, Recorded(ScoreOf(c).value), g);
      }
    }
  }

  /** Keys only grow, and new keys are tracked goals; every list that existed
      is a prefix of its list afterwards, also when the call raises. */
  lemma {:induction false} AddGoalsKeys(t: Table, candidates: seq<string>, goals: seq<string>)
    ensures var r := AddGoalsSpec(t, candidates, goals).0;
            t.Keys <= r.Keys <= t.Keys + set g | g in goals
    ensures var r := AddGoalsSpec(t, candidates, goals).0;
            forall g :: ValueOf(t, g) <= ValueOf(r, g)
  {
    if candidates != [] {
      var front := candidates[..|candidates| - 1];
      var c := candidates[|candidates| - 1];
      AddGoalsKeys(t, front, goals);
      var (t', st) := AddGoalsSpec(t, front, goals);
      if st.Done? && ScoreOf(c).Ok? {
        AddCandidateKeys(t', goals, c, Recorded(ScoreOf(c).value));
        forall g ensures ValueOf(t, g) <= ValueOf(AddGoalsSpec(t, candidates, goals).0, g) {
          AddCandidateValue(t', goals, c, Recorded(ScoreOf(c).value), g);
          assert ValueOf(t, g) <= ValueOf(t', g);
        }
      }
    }
  }

  /** Every line carries a `': '` separator. */
  predicate AllScored(candidates: seq<string>)
  {
    forall i :: 0 <= i < |candidates| ==> Contains(candidates[i], ": ")
  }

  /** The call raises exactly when some line lacks `': '`, and then with
      `IndexError`. */
  lemma {:induction false} AddGoalsRaises(t: Table, candidates: seq<string>, goals: seq<string>)
    ensures AddGoalsSpec(t, candidates, goals).1.Failed? <==> !AllScored(candidates)
    ensures AddGoalsSpec(t, candidates, goals).1.Failed? ==>
              AddGoalsSpec(t, candidates, goals).1.error == IndexError
  {
    if candidates != [] {
      var n := |candidates| - 1;
      var front, c := candidates[..n], candidates[n];
      assert candidates == front + [c];
      AddGoalsRaises(t, front, goals);
      assert AllScored(candidates) <==> AllScored(front) && Contains(c, ": ");
    }
  }

  /** Lines after the first one lacking `': '` are never looked at. */
  lemma {:induction false} AddGoalsStops(t: Table, candidates: seq<string>, goals: seq<string>, i: nat)
    requires i < |candidates| && !Contains(candidates[i], ": ")
    requires forall j :: 0 <= j < i ==> Contains(candidates[j], ": ")
    ensures AddGoalsSpec(t, candidates, goals)
            == (AddGoalsSpec(t, candidates[..i], goals).0, Failed(IndexError))
    decreases |candidates|
  {
    if |candidates| - 1 == i {
      AddGoalsRaises(t, candidates[..i], goals);
      assert forall j :: 0 <= j < i ==> candidates[..i][j] == candidates[j];
    } else {
      var front := candidates[..|candidates| - 1];
      assert front[..i] == candidates[..i];
      AddGoalsStops(t, front, goals, i);
    }
  }

  predicate NoNaN(t: Table)
  {
    forall g :: g in t ==> NaN !in t[g]
  }

  /** No NaN is ever stored. */
  lemma {:induction false} AddGoalsNoNaN(t: Table, candidates: seq<string>, goals: seq<string>)
    requires NoNaN(t)
    ensures NoNaN(AddGoalsSpec(t, candidates, goals).0)
  {
    if candidates != [] {
      var front := candidates[..|candidates| - 1];
      var c := candidates[|candidates| - 1];
      AddGoalsNoNaN(t, front, goals);
      var (t', st) := AddGoalsSpec(t, front, goals);
      if st.Done? && ScoreOf(c).Ok? {
        var s := Recorded(ScoreOf(c).value);
        AddCandidateKeys(t', goals, c, s);
        var r := AddCandidate(t', goals, c, s);
        assert r == AddGoalsSpec(t, candidates, goals).0;
        forall g | g in r ensures NaN !in r[g] {
          AddCandidateValue(t', goals, c, s, g);
          var n := Hits(goals, c, g);
          assert r[g] == ValueOf(t', g) + Repeat(s, n);
          assert NaN !in ValueOf(t', g);
          assert NaN !in Repeat(s, n);
        }
      }
    }
  }

  /** The score table `run_file` keeps across frames. */
  class ScoreTable {
    var scores: Table

    constructor ()
      ensures scores == map[]
    {
      scores := map[];
    }

    method AddGoals(candidates: seq<string>, goals: seq<string>) returns (status: Status)
      modifies this
      ensures (scores, status) == AddGoalsSpec(old(scores), candidates, goals)
    {
      ghost var t := scores;
      for i := 0 to |candidates|
        invariant AddGoalsSpec(t, candidates[..i], goals) == (scores, Done)
      {
        assert candidates[..i + 1][..i] == candidates[..i];
        var candidate := candidates[i];
        var parsed := ScoreOf(candidate);
        if parsed.Raised? {
          AddGoalsRaises(t, candidates[..i], goals);
          assert forall j :: 0 <= j < i ==> candidates[..i][j] == candidates[j];
          AddGoalsStops(t, candidates, goals, i);
          return Failed(parsed.error);
        }
        var score := parsed.value;
        ghost var start := scores;
        for j := 0 to |goals|
          invariant scores == AddCandidate(start, goals[..j], candidate, Recorded(parsed.value))
          invariant score == parsed.value || (score == MinusOne && parsed.value.NaN?)
          invariant Recorded(score) == Recorded(parsed.value)
        {
          assert goals[..j + 1][..j] == goals[..j];
          var goal := goals[j];
          if Contains(candidate, goal) {
            if score.NaN? {
              score := MinusOne;
            }
            scores := scores[goal := (if goal in scores then scores[goal] else []) + [score]];
          }
        }
        assert goals[..|goals|] == goals;
      }
      assert candidates[..|candidates|] == candidates;
      status := Done;
    }
  }
}
