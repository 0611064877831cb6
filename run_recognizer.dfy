/** `run_recognizer.py`: every frame of relations is normalised with the
    groups of the configuration, and whenever the normalised frame differs
    from the previous one its encoding is appended to the observation file
    and the recogniser is asked for its candidate goals; on every frame the
    candidate report in force is added to the score table. */
module RunRecognizer {
  import opened Common
  import opened Text
  import opened Normalizer
  import opened Encoder
  import opened Session
  import opened Scores
  import CreateGoalStates

  /** `check_group(relations, groups)` of this script. */
  method CheckGroup(relations: array<Triple>, groups: map<Name, seq<Name>>)
    returns (result: Outcome<seq<Relation>>)
    modifies relations
    ensures result == GroupsOutcome(old(relations[..]), groups)
    ensures result.Ok? ==> relations[..] == (if Egg in groups then Rewritten(old(relations[..]), groups[Egg])
                                            else old(relations[..]))
  {
    result := ApplyGroups(relations, groups);
  }

  /** Only the `'egg'` entry of the groups is consulted. */
  lemma GroupsOnlyEgg(ts: seq<Triple>, g1: map<Name, seq<Name>>, g2: map<Name, seq<Name>>)
    requires Egg in g1 <==> Egg in g2
    requires Egg in g1 ==> g1[Egg] == g2[Egg]
    ensures GroupsOutcome(ts, g1) == GroupsOutcome(ts, g2)
  {
  }

  /** With the groups `{'egg': variants}` this script's `check_group` is the
      one of `create_goal_states.py`; without an `'egg'` entry it fails on
      every non-empty frame. */
  lemma GroupsAgreeWithGoalStates(ts: seq<Triple>, groups: map<Name, seq<Name>>)
    ensures groups == map[Egg := CreateGoalStates.EggVariants] ==>
              GroupsOutcome(ts, groups) == Ok(Normalize(ts, CreateGoalStates.EggVariants))
    ensures Egg !in groups ==> (GroupsOutcome(ts, groups).Raised? <==> ts != [])
  {
    if ts == [] {
      assert Normalize(ts, CreateGoalStates.EggVariants) == [] by {
        assert Rewritten(ts, CreateGoalStates.EggVariants) == [];
      }
    }
  }

  /** The encoding of a normalised frame never fails: every row is a pair or
      a triple. */
  function ObservationOf(rels: seq<Relation>): (obs: string)
    ensures Encode(Rows(rels)) == Ok(obs)
    ensures obs == Prefix(Keys(Rows(rels))) + JoinComma(Atoms(Rows(rels)))
  {
    var rows := Rows(rels);
    EncodeIsPrefixAndAtoms(rows);
    Prefix(Keys(rows)) + JoinComma(Atoms(rows))
  }

  /** The observation file: `content` is what has been written to it since
      the constructor truncated it; `observations` the arguments of
      `write_observation`, in order. */
  class FileObservations {
    var content: string
    ghost var observations: seq<string>

    ghost predicate Valid()
      reads this
    {
      content == JoinLines(observations)
    }

    constructor ()
      ensures Valid() && observations == [] && content == ""
    {
      content := "";
      observations := [];
    }

    method WriteObservation(observation: string)
      modifies this
      requires Valid()
      ensures Valid()
      ensures observations == old(observations) + [observation]
      ensures content == old(content) + observation + "\n"
    {
      JoinLinesSnoc(observations, observation);
      content := content + observation + "\n";
      observations := observations + [observation];
    }
  }

  /** When the observations hold no line break, the file has exactly one
      line per observation. */
  lemma ObservationFileLines(observations: seq<string>)
    requires forall i :: 0 <= i < |observations| ==> '\n' !in observations[i]
    ensures CountChar(JoinLines(observations), '\n') == |observations|
  {
    JoinLinesCount(observations);
  }

  datatype RunStatus = Normal | Aborted(error: Error) | Hung

  /** Everything `run_file` keeps between frames, with the recogniser's
      remaining output and what was written to it. */
  datatype RunState = RunState(
    last: seq<Relation>,
    candidates: seq<string>,
    scores: Table,
    observations: seq<string>,
    pending: seq<seq<Byte>>,
    trace: seq<PipeEvent>,
    status: RunStatus)

  function Start(responses: seq<seq<Byte>>): RunState
  {
    RunState([], [], map[], [], responses, [], Normal)
  }

  /** A changed frame: write its encoding, then ask the recogniser. */
  function Observe(st: RunState, rels: seq<Relation>): RunState
  {
    var log := st.observations + [ObservationOf(rels)];
    ListenSpec(st.pending);
    match Listen(st.pending)
    case Hang =>
      st.(last := rels, observations := log, pending := [], trace := st.trace + Request, status := Hung)
    case Exchange(reply, n, resync) =>
      st.(last := rels, candidates := reply, observations := log, pending := st.pending[n..],
          trace := st.trace + Request + (if resync then Resync else []))
  }

  /** One iteration of the frame loop. */
  function Step(st: RunState, frame: seq<Triple>, groups: map<Name, seq<Name>>, goals: seq<string>): RunState
  {
    if !st.status.Normal? then st
    else match GroupsOutcome(frame, groups)
      case Raised(e) => st.(status := Aborted(e))
      case Ok(rels) =>
        var st1 := if rels != st.last then Observe(st, rels) else st;
        if !st1.status.Normal? then st1
        else
          var (t, s) := AddGoalsSpec(st1.scores, st1.candidates, goals);
          st1.(scores := t, status := if s.Done? then Normal else Aborted(s.error))
  }

  /** The state after the loop has run over `frames`. */
  function Run(frames: seq<seq<Triple>>, groups: map<Name, seq<Name>>, goals: seq<string>,
               responses: seq<seq<Byte>>): RunState
  {
    if frames == [] then Start(responses)
    else Step(Run(frames[..|frames| - 1], groups, goals, responses), frames[|frames| - 1], groups, goals)
  }

  /** The frame loop's body: `check_group`, then, for a changed frame, the
      observation and the recogniser call, then `add_goals`. */
  method ProcessFrame(table: ScoreTable, rec: GoalRecognizer, fobs: FileObservations,
                      frame: seq<Triple>, groups: map<Name, seq<Name>>, goals: seq<string>,
                      last: seq<Relation>, candidates: seq<string>)
    returns (status: RunStatus, last': seq<Relation>, candidates': seq<string>)
    requires fobs.Valid()
    modifies table, rec, fobs
    ensures fobs.Valid()
    ensures Step(RunState(last, candidates, old(table.scores), old(fobs.observations), old(rec.pending),
                          old(rec.trace), Normal), frame, groups, goals)
            == RunState(last', candidates', table.scores, fobs.observations, rec.pending, rec.trace, status)
  {
    last', candidates' := last, candidates;
    var relations := new Triple[|frame|](j requires 0 <= j < |frame| => frame[j]);
    assert relations[..] == frame;
    var normalized := CheckGroup(relations, groups);
    if normalized.Raised? {
      return Aborted(normalized.error), last', candidates';
    }
    var rels := normalized.value;
    if rels != last {
      last' := rels;
      var strRels := ConvertRelationsString(Rows(rels));
      fobs.WriteObservation(strRels.value);
      var reply := rec.CheckGoals();
      if reply.Diverges? {
        return Hung, last', candidates';
      }
      candidates' := reply.lines;
    }
    var added := table.AddGoals(candidates', goals);
    status := if added.Done? then Normal else Aborted(added.error);
  }

  /** The loop of `run_file` over already-read frames: the score table that
      `save_scores` would receive, the observation file's text, what was
      written to the recogniser, and how the run ended. A hang stands for
      the script blocking forever on the recogniser's output. */
  method RunFile(frames: seq<seq<Triple>>, groups: map<Name, seq<Name>>, goals: seq<string>,
                 responses: seq<seq<Byte>>)
    returns (status: RunStatus, scores: Table, log: string, trace: seq<PipeEvent>)
    ensures var st := Run(frames, groups, goals, responses);
            status == st.status && scores == st.scores && log == JoinLines(st.observations)
            && trace == st.trace
  {
    var table := new ScoreTable();
    var rec := new GoalRecognizer(responses);
    var fobs := new FileObservations();
    var last: seq<Relation> := [];
    var candidates: seq<string> := [];
    for i := 0 to |frames|
      invariant fobs.Valid()
      invariant Run(frames[..i], groups, goals, responses)
                == RunState(last, candidates, table.scores, fobs.observations, rec.pending, rec.trace, Normal)
    {
      assert frames[..i + 1][..i] == frames[..i];
      var st;
      st, last, candidates := ProcessFrame(table, rec, fobs, frames[i], groups, goals, last, candidates);
      if !st.Normal? {
        RunStopped(frames, groups, goals, responses, i + 1);
        return st, table.scores, fobs.content, rec.trace;
      }
    }
    assert frames[..|frames|] == frames;
    return Normal, table.scores, fobs.content, rec.trace;
  }

  /** Once the run has stopped, later frames change nothing. */
  lemma {:induction false} RunStopped(frames: seq<seq<Triple>>, groups: map<Name, seq<Name>>, goals: seq<string>,
                                      responses: seq<seq<Byte>>, i: nat)
    requires i <= |frames|
    requires !Run(frames[..i], groups, goals, responses).status.Normal?
    ensures Run(frames, groups, goals, responses) == Run(frames[..i], groups, goals, responses)
    decreases |frames| - i
  {
    if i < |frames| {
      var front := frames[..|frames| - 1];
      assert front[..i] == frames[..i];
      RunStopped(front, groups, goals, responses, i);
    } else {
      assert frames[..i] == frames;
    }
  }

  /** A run that ends normally was normal after every prefix of its frames. */
  lemma RunNormalPrefix(frames: seq<seq<Triple>>, groups: map<Name, seq<Name>>, goals: seq<string>,
                        responses: seq<seq<Byte>>, i: nat)
    requires i <= |frames|
    requires Run(frames, groups, goals, responses).status.Normal?
    ensures Run(frames[..i], groups, goals, responses).status.Normal?
  {
    if !Run(frames[..i], groups, goals, responses).status.Normal? {
      RunStopped(frames, groups, goals, responses, i);
    }
  }

  /** A frame normalised with the groups' `'egg'` variants. */
  function Norm(frame: seq<Triple>, groups: map<Name, seq<Name>>): (rels: seq<Relation>)
    requires Egg in groups
    ensures GroupsOutcome(frame, groups) == Ok(rels)
  {
    if frame == [] then
      assert AsBinary(Rewritten(frame, groups[Egg])) == [];
      assert Normalize(frame, groups[Egg]) == [];
      Normalize(frame, groups[Egg])
    else Normalize(frame, groups[Egg])
  }

  /** The normalised frame before frame `i`; `[]` before the first. */
  function Prev(frames: seq<seq<Triple>>, groups: map<Name, seq<Name>>, i: nat): seq<Relation>
    requires Egg in groups && i <= |frames|
  {
    if i == 0 then [] else Norm(frames[i - 1], groups)
  }

  /** The reference observation log: the encoding of every frame whose
      normalisation differs from the frame before it, in frame order. */
  function Changed(frames: seq<seq<Triple>>, groups: map<Name, seq<Name>>): seq<string>
    requires Egg in groups
  {
    if frames == [] then []
    else
      var n := |frames| - 1;
      Changed(frames[..n], groups)
      + if Norm(frames[n], groups) != Prev(frames, groups, n) then [ObservationOf(Norm(frames[n], groups))] else []
  }

  /** The observation file of a normal run holds exactly the encodings of
      the changed frames, and `last_relations` is the last normalised frame. */
  lemma {:induction false} RunObservations(frames: seq<seq<Triple>>, groups: map<Name, seq<Name>>,
                                           goals: seq<string>, responses: seq<seq<Byte>>)
    requires Egg in groups
    ensures var st := Run(frames, groups, goals, responses);
            st.status.Normal? ==>
              st.observations == Changed(frames, groups) && st.last == Prev(frames, groups, |frames|)
  {
    if frames != [] {
      var n := |frames| - 1;
      var front := frames[..n];
      if Run(frames, groups, goals, responses).status.Normal? {
        RunNormalPrefix(frames, groups, goals, responses, n);
        RunObservations(front, groups, goals, responses);
        if n > 0 {
          assert front[n - 1] == frames[n - 1];
        }
        assert Prev(front, groups, n) == Prev(frames, groups, n);
      }
    }
  }

  /** Frames that all normalise to the same relations cause a single
      observation (none when those relations are empty). */
  lemma {:induction false} ChangedConstant(frames: seq<seq<Triple>>, groups: map<Name, seq<Name>>, rels: seq<Relation>)
    requires Egg in groups
    requires forall i :: 0 <= i < |frames| ==> Norm(frames[i], groups) == rels
    ensures Changed(frames, groups) == if frames == [] || rels == [] then [] else [ObservationOf(rels)]
  {
    if frames != [] {
      var n := |frames| - 1;
      assert forall i :: 0 <= i < n ==> frames[..n][i] == frames[i];
      ChangedConstant(frames[..n], groups, rels);
      if n > 0 {
        assert Prev(frames, groups, n) == rels;
      }
    }
  }

  /** How many times the recogniser was asked (`r` control lines). */
  function Calls(trace: seq<PipeEvent>): nat
  {
    multiset(trace)[Write(RecognizeCmd)]
  }

  /** One request is made per observation written, whatever the outcome of
      the run, and there are never more observations than frames. */
  lemma {:induction false} RunCalls(frames: seq<seq<Triple>>, groups: map<Name, seq<Name>>,
                                    goals: seq<string>, responses: seq<seq<Byte>>)
    ensures var st := Run(frames, groups, goals, responses);
            Calls(st.trace) == |st.observations| <= |frames|
  {
    if frames != [] {
      var front := frames[..|frames| - 1];
      RunCalls(front, groups, goals, responses);
      StepCalls(Run(front, groups, goals, responses), frames[|frames| - 1], groups, goals);
    }
  }

  /** A frame writes `r` exactly when it records an observation. */
  lemma StepCalls(st: RunState, frame: seq<Triple>, groups: map<Name, seq<Name>>, goals: seq<string>)
    requires Calls(st.trace) == |st.observations|
    ensures var st' := Step(st, frame, groups, goals);
            Calls(st'.trace) == |st'.observations| <= |st.observations| + 1
  {
    if st.status.Normal? && GroupsOutcome(frame, groups).Ok? {
      var rels := GroupsOutcome(frame, groups).value;
      if rels != st.last {
        ObserveCalls(st, rels);
      }
    }
  }

  lemma ObserveCalls(st: RunState, rels: seq<Relation>)
    ensures var st' := Observe(st, rels);
            Calls(st'.trace) == Calls(st.trace) + 1 && |st'.observations| == |st.observations| + 1
  {
    assert Write(StopCmd) != Write(RecognizeCmd) by {
      assert StopCmd[0] != RecognizeCmd[0];
    }
    assert Calls(Request) == 1;
    assert Calls(Resync) == 0;
    ListenSpec(st.pending);
    var e := Listen(st.pending);
    if e.Exchange? && e.resync {
      assert multiset(st.trace + Request + Resync) == multiset(st.trace) + multiset(Request) + multiset(Resync);
    } else {
      assert multiset(st.trace + Request) == multiset(st.trace) + multiset(Request);
    }
  }

  /** The state before frame `i` of a normal run: normal, and its
      `last_relations` is the previous normalised frame. */
  lemma FrameBefore(frames: seq<seq<Triple>>, groups: map<Name, seq<Name>>, goals: seq<string>,
                    responses: seq<seq<Byte>>, i: nat)
    requires Egg in groups && i < |frames|
    requires Run(frames[..i + 1], groups, goals, responses).status.Normal?
    ensures var before := Run(frames[..i], groups, goals, responses);
            && before.status.Normal?
            && before.last == Prev(frames, groups, i)
            && Run(frames[..i + 1], groups, goals, responses) == Step(before, frames[i], groups, goals)
  {
    var prefix := frames[..i + 1];
    assert prefix[..i] == frames[..i];
    RunNormalPrefix(prefix, groups, goals, responses, i);
    RunObservations(frames[..i], groups, goals, responses);
    if i > 0 {
      assert frames[..i][i - 1] == frames[i - 1];
    }
  }

  /** An unchanged frame of a normal run reuses the previous report: nothing
      is written and the recogniser is not asked. */
  lemma FrameUnchanged(frames: seq<seq<Triple>>, groups: map<Name, seq<Name>>, goals: seq<string>,
                       responses: seq<seq<Byte>>, i: nat)
    requires Egg in groups && i < |frames|
    requires Run(frames[..i + 1], groups, goals, responses).status.Normal?
    requires Norm(frames[i], groups) == Prev(frames, groups, i)
    ensures var before := Run(frames[..i], groups, goals, responses);
            var after := Run(frames[..i + 1], groups, goals, responses);
            after.candidates == before.candidates && after.observations == before.observations
            && after.pending == before.pending && after.trace == before.trace
  {
    FrameBefore(frames, groups, goals, responses, i);
  }

  /** A changed frame of a normal run writes its encoding and takes the
      recogniser's next reply as the report. */
  lemma FrameChanged(frames: seq<seq<Triple>>, groups: map<Name, seq<Name>>, goals: seq<string>,
                     responses: seq<seq<Byte>>, i: nat)
    requires Egg in groups && i < |frames|
    requires Run(frames[..i + 1], groups, goals, responses).status.Normal?
    requires Norm(frames[i], groups) != Prev(frames, groups, i)
    ensures var before := Run(frames[..i], groups, goals, responses);
            var after := Run(frames[..i + 1], groups, goals, responses);
            && after.observations == before.observations + [ObservationOf(Norm(frames[i], groups))]
            && Listen(before.pending).Exchange?
            && after.candidates == Listen(before.pending).reply
            && Listen(before.pending).consumed <= |before.pending|
            && after.pending == before.pending[Listen(before.pending).consumed..]
  {
    ListenSpec(Run(frames[..i], groups, goals, responses).pending);
    FrameBefore(frames, groups, goals, responses, i);
    var before := Run(frames[..i], groups, goals, responses);
    var after := Run(frames[..i + 1], groups, goals, responses);
    var st1 := Observe(before, Norm(frames[i], groups));
    assert st1.status.Normal? && after == st1.(scores := after.scores);
    assert Listen(before.pending).Exchange?;
  }

  /** On every frame of a normal run, each goal's list grows by the goal's
      column of the report in force. */
  lemma FrameScores(frames: seq<seq<Triple>>, groups: map<Name, seq<Name>>, goals: seq<string>,
                    responses: seq<seq<Byte>>, i: nat, g: string)
    requires Egg in groups && i < |frames|
    requires Run(frames[..i + 1], groups, goals, responses).status.Normal?
    ensures var before := Run(frames[..i], groups, goals, responses);
            var after := Run(frames[..i + 1], groups, goals, responses);
            ValueOf(after.scores, g) == ValueOf(before.scores, g) + Column(after.candidates, goals, g)
  {
    FrameBefore(frames, groups, goals, responses, i);
    var before := Run(frames[..i], groups, goals, responses);
    var rels := Norm(frames[i], groups);
    var st1 := if rels != before.last then Observe(before, rels) else before;
    AddGoalsColumn(st1.scores, st1.candidates, goals, g);
  }
}
