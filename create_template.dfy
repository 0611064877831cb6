/** `create_template.py`: the problem-definition template the recogniser is
    started with, an `(:objects …)` block, an `(:init …)` block holding one
    type fact per object that is not a group name and every initial relation
    in sorted order, and a `(:goal …)` block with a placeholder. */
module CreateTemplate {
  import opened Common
  import opened Text
  import opened Ordering
  import opened Normalizer

  /** `check_group(groups, relations)`: the same loop as in the other two
      scripts, with the arguments swapped. */
  method CheckGroup(groups: map<Name, seq<Name>>, relations: array<Triple>)
    returns (result: Outcome<seq<Relation>>)
    modifies relations
    ensures result == GroupsOutcome(old(relations[..]), groups)
    ensures Egg in groups ==> relations[..] == Rewritten(old(relations[..]), groups[Egg])
    ensures Egg !in groups ==> relations[..] == old(relations[..])
  {
    result := ApplyGroups(relations, groups);
  }

  // ---------------------------------------------------------------------
  // convert_objects_string

  function ObjectLine(obj: Name): string
  {
    "  " + obj + "1"
  }

  /** What the loop of `convert_objects_string` appends for one object. */
  function ObjectEntry(obj: Name): string
  {
    ObjectLine(obj) + "\n"
  }

  function ObjectLines(objects: seq<Name>): string
  {
    if objects == [] then ""
    else ObjectLines(objects[..|objects| - 1]) + ObjectEntry(objects[|objects| - 1])
  }

  function ObjectsBlock(objects: seq<Name>): string
  {
    "(:objects\n" + ObjectLines(objects) + ")\n"
  }

  method ConvertObjectsString(objects: seq<Name>) returns (content: string)
    ensures content == ObjectsBlock(objects)
  {
    content := "(:objects\n";
    for i := 0 to |objects|
      invariant content == "(:objects\n" + ObjectLines(objects[..i])
    {
      assert objects[..i + 1][..i] == objects[..i];
      ConcatAssoc("(:objects\n", ObjectLines(objects[..i]), ObjectEntry(objects[i]));
      content := content + ObjectEntry(objects[i]);
    }
    assert objects[..|objects|] == objects;
    content := content + ")\n";
  }

  /** The objects block is one line per object, in the given order, between
      its opening and closing lines. */
  lemma {:induction false} ObjectLinesAreLines(objects: seq<Name>)
    ensures ObjectLines(objects) == JoinLines(seq(|objects|, i requires 0 <= i < |objects| => ObjectLine(objects[i])))
  {
    if objects != [] {
      var n := |objects| - 1;
      ObjectLinesAreLines(objects[..n]);
      var lines := seq(|objects|, i requires 0 <= i < |objects| => ObjectLine(objects[i]));
      assert lines == seq(n, i requires 0 <= i < n => ObjectLine(objects[..n][i])) + [ObjectLine(objects[n])];
      JoinLinesSnoc(seq(n, i requires 0 <= i < n => ObjectLine(objects[..n][i])), ObjectLine(objects[n]));
    }
  }

  // ---------------------------------------------------------------------
  // convert_relations_string

  /** The type fact of an object that is not a group: `(obj obj1)`. */
  function InitObjectLine(obj: Name): string
  {
    "  (" + obj + " " + obj + "1)"
  }

  function InitObjects(objects: seq<Name>, groups: map<Name, seq<Name>>): string
  {
    if objects == [] then ""
    else
      var o := objects[|objects| - 1];
      InitObjects(objects[..|objects| - 1], groups) + if o !in groups then InitObjectEntry(o) else ""
  }

  /** What the first loop of `convert_relations_string` appends for an
      object that is not a group. */
  function InitObjectEntry(obj: Name): string
  {
    InitObjectLine(obj) + "\n"
  }

  /** The objects that are not group names, in the given order. */
  function NonGroup(objects: seq<Name>, groups: map<Name, seq<Name>>): seq<Name>
  {
    if objects == [] then []
    else
      var o := objects[|objects| - 1];
      NonGroup(objects[..|objects| - 1], groups) + if o !in groups then [o] else []
  }

  /** The non-group objects are exactly the objects that do not name a group,
      kept in their order. */
  lemma {:induction false} NonGroupMembers(objects: seq<Name>, groups: map<Name, seq<Name>>)
    ensures forall x :: x in NonGroup(objects, groups) <==> x in objects && x !in groups
    ensures |NonGroup(objects, groups)| <= |objects|
  {
    if objects != [] {
      var n := |objects| - 1;
      NonGroupMembers(objects[..n], groups);
      assert objects == objects[..n] + [objects[n]];
    }
  }

  /** A row of the sorted relations: `(s o1)` for a pair, `(r s1 o1)` for a
      triple; any other length contributes nothing. */
  function RowText(row: seq<Name>): string
  {
    if |row| == 2 then "  (" + row[0] + " " + row[1] + "1)"
    else if |row| == 3 then "  (" + row[1] + " " + row[0] + "1 " + row[2] + "1)"
    else ""
  }

  /** What the loop appends for one row. */
  function RowEntry(row: seq<Name>): string
  {
    if |row| == 2 || |row| == 3 then RowText(row) + "\n" else ""
  }

  function RowLines(rows: seq<seq<Name>>): string
  {
    if rows == [] then "" else RowLines(rows[..|rows| - 1]) + RowEntry(rows[|rows| - 1])
  }

  /** `sorted(relations)`, as rows. */
  function SortedRows(rels: seq<Relation>): seq<seq<Name>>
  {
    Sort(Rows(rels), TupleLe)
  }

  function InitBlock(objects: seq<Name>, rels: seq<Relation>, groups: map<Name, seq<Name>>): string
  {
    "(:init\n" + InitObjects(objects, groups) + RowLines(SortedRows(rels)) + ")\n"
  }

  method ConvertRelationsString(objects: seq<Name>, rels: seq<Relation>, groups: map<Name, seq<Name>>)
    returns (content: string)
    ensures content == InitBlock(objects, rels, groups)
  {
    content := "(:init\n";
    for i := 0 to |objects|
      invariant content == "(:init\n" + InitObjects(objects[..i], groups)
    {
      assert objects[..i + 1][..i] == objects[..i];
      if objects[i] !in groups {
        ConcatAssoc("(:init\n", InitObjects(objects[..i], groups), InitObjectEntry(objects[i]));
        content := content + InitObjectEntry(objects[i]);
      }
    }
    assert objects[..|objects|] == objects;
    var rows := Sort(Rows(rels), TupleLe);
    for i := 0 to |rows|
      invariant content == "(:init\n" + InitObjects(objects, groups) + RowLines(rows[..i])
    {
      assert rows[..i + 1][..i] == rows[..i];
      ConcatAssoc("(:init\n" + InitObjects(objects, groups), RowLines(rows[..i]), RowEntry(rows[i]));
      content := content + RowEntry(rows[i]);
    }
    assert rows[..|rows|] == rows;
    content := content + ")\n";
  }

  /** The type facts are one line per non-group object, in the given order. */
  lemma {:induction false} InitObjectsAreLines(objects: seq<Name>, groups: map<Name, seq<Name>>)
    ensures var ng := NonGroup(objects, groups);
            InitObjects(objects, groups) == JoinLines(seq(|ng|, i requires 0 <= i < |ng| => InitObjectLine(ng[i])))
  {
    if objects != [] {
      var n := |objects| - 1;
      var o := objects[n];
      InitObjectsAreLines(objects[..n], groups);
      var ng0 := NonGroup(objects[..n], groups);
      var lines0 := seq(|ng0|, i requires 0 <= i < |ng0| => InitObjectLine(ng0[i]));
      if o !in groups {
        var ng := ng0 + [o];
        assert seq(|ng|, i requires 0 <= i < |ng| => InitObjectLine(ng[i])) == lines0 + [InitObjectLine(o)];
        JoinLinesSnoc(lines0, InitObjectLine(o));
      } else {
        assert NonGroup(objects, groups) == ng0;
      }
    }
  }

  /** The lines of the rows, in order. */
  function RowTexts(rows: seq<seq<Name>>): (ls: seq<string>)
    ensures |ls| == |rows| && forall i :: 0 <= i < |rows| ==> ls[i] == RowText(rows[i])
  {
    if rows == [] then [] else RowTexts(rows[..|rows| - 1]) + [RowText(rows[|rows| - 1])]
  }

  /** Every row of a relation list is a pair or a triple, so each gives one
      line. */
  lemma {:induction false} RowLinesAreLines(rows: seq<seq<Name>>)
    requires forall row :: row in rows ==> |row| == 2 || |row| == 3
    ensures RowLines(rows) == JoinLines(RowTexts(rows))
  {
    if rows != [] {
      var n := |rows| - 1;
      var front := rows[..n];
      RowLinesAreLines(front);
      JoinLinesSnoc(RowTexts(front), RowText(rows[n]));
      ConcatAssoc(JoinLines(RowTexts(front)), RowText(rows[n]), "\n");
    }
  }

  /** The relation lines come in Python's tuple order and are a permutation
      of the relations: `SortedRows` is the only sorted arrangement of them. */
  lemma SortedRowsSpec(rels: seq<Relation>)
    ensures SortedBy(SortedRows(rels), TupleLe)
    ensures multiset(SortedRows(rels)) == multiset(Rows(rels))
    ensures forall i :: 0 <= i < |SortedRows(rels)| ==> |SortedRows(rels)[i]| == 2 || |SortedRows(rels)[i]| == 3
    ensures |SortedRows(rels)| == |rels|
  {
    TupleLeIsTotalOrder();
    SortIsSorted(Rows(rels), TupleLe);
    var rows := SortedRows(rels);
    forall i | 0 <= i < |rows| ensures |rows[i]| == 2 || |rows[i]| == 3 {
      assert rows[i] in multiset(Rows(rels));
    }
    assert |rows| == |multiset(rows)| == |multiset(Rows(rels))| == |rels|;
  }

  /** No name holds a line break. */
  predicate OneLineNames(names: seq<Name>)
  {
    forall i :: 0 <= i < |names| ==> '\n' !in names[i]
  }

  ghost predicate OneLineRels(rels: seq<Relation>)
  {
    forall i :: 0 <= i < |rels| ==> OneLineNames(Items(rels[i]))
  }

  /** One type-fact line per non-group object. */
  lemma {:induction false} InitObjectsCount(objects: seq<Name>, groups: map<Name, seq<Name>>)
    requires OneLineNames(objects)
    ensures CountChar(InitObjects(objects, groups), '\n') == |NonGroup(objects, groups)|
  {
    if objects != [] {
      var n := |objects| - 1;
      var front := objects[..n];
      InitObjectsCount(front, groups);
      var o := objects[n];
      var e := if o !in groups then InitObjectEntry(o) else "";
      assert InitObjects(objects, groups) == InitObjects(front, groups) + e;
      CountCharConcat(InitObjects(front, groups), e, '\n');
      if o !in groups {
        InitObjectEntryCount(o);
        assert |NonGroup(objects, groups)| == |NonGroup(front, groups)| + 1;
      } else {
        assert |NonGroup(objects, groups)| == |NonGroup(front, groups)|;
      }
    }
  }

  lemma InitObjectEntryCount(obj: Name)
    requires '\n' !in obj
    ensures CountChar(InitObjectEntry(obj), '\n') == 1
  {
    LineCount(InitObjectLine(obj));
  }

  /** A pair or triple of names without line breaks. */
  predicate OneLineRow(row: seq<Name>)
  {
    (|row| == 2 || |row| == 3) && OneLineNames(row)
  }

  lemma RowEntryCount(row: seq<Name>)
    requires OneLineRow(row)
    ensures CountChar(RowEntry(row), '\n') == 1
  {
    LineCount(RowText(row));
  }

  /** One line per pair or triple. */
  lemma {:induction false} RowLinesCount(rows: seq<seq<Name>>)
    requires forall row :: row in rows ==> OneLineRow(row)
    ensures CountChar(RowLines(rows), '\n') == |rows|
  {
    if rows != [] {
      var n := |rows| - 1;
      var front := rows[..n];
      RowLinesCount(front);
      RowEntryCount(rows[n]);
      CountCharConcat(RowLines(front), RowEntry(rows[n]), '\n');
    }
  }

  /** The sorted rows keep the relations' names. */
  lemma SortedRowsOneLine(rels: seq<Relation>)
    requires OneLineRels(rels)
    ensures forall row :: row in SortedRows(rels) ==> OneLineRow(row)
  {
    SortedRowsSpec(rels);
    forall row | row in SortedRows(rels) ensures OneLineRow(row) {
      assert row in multiset(Rows(rels));
      var j :| 0 <= j < |rels| && Rows(rels)[j] == row;
      assert OneLineNames(Items(rels[j]));
    }
  }

  /** The init block has one line per non-group object, one per relation,
      and its opening and closing lines. */
  lemma InitBlockLines(objects: seq<Name>, rels: seq<Relation>, groups: map<Name, seq<Name>>)
    requires OneLineNames(objects) && OneLineRels(rels)
    ensures CountChar(InitBlock(objects, rels, groups), '\n') == |NonGroup(objects, groups)| + |rels| + 2
  {
    var io, rl := InitObjects(objects, groups), RowLines(SortedRows(rels));
    InitObjectsCount(objects, groups);
    SortedRowsOneLine(rels);
    RowLinesCount(SortedRows(rels));
    SortedRowsSpec(rels);
    DelimiterLines();
    CountCharConcat("(:init\n", io, '\n');
    CountCharConcat("(:init\n" + io, rl, '\n');
    CountCharConcat("(:init\n" + io + rl, ")\n", '\n');
  }

  /** The objects block has one line per object and its two delimiting
      lines. */
  lemma ObjectsBlockLines(objects: seq<Name>)
    requires OneLineNames(objects)
    ensures CountChar(ObjectsBlock(objects), '\n') == |objects| + 2
  {
    var lines := seq(|objects|, i requires 0 <= i < |objects| => ObjectLine(objects[i]));
    ObjectLinesAreLines(objects);
    forall i | 0 <= i < |objects| ensures '\n' !in lines[i] {
      assert lines[i] == "  " + objects[i] + "1";
    }
    JoinLinesCount(lines);
    DelimiterLines();
    CountCharConcat("(:objects\n", ObjectLines(objects), '\n');
    CountCharConcat("(:objects\n" + ObjectLines(objects), ")\n", '\n');
  }

  // ---------------------------------------------------------------------
  // save_template

  /** What `save_template` appends after the two blocks. */
  const GoalBlock: string := "(:goal (and" + "\n" + "  <HYPOTHESIS>" + "\n" + "))" + "\n" + ")"

  function ProblemLine(problem: string): string
  {
    "(define (problem " + problem + ")" + "\n"
  }

  function DomainLine(domain: string): string
  {
    "(:domain " + domain + ")" + "\n"
  }

  /** The text `save_template` writes. */
  function SaveTemplate(problem: string, domain: string, objects: seq<Name>, rels: seq<Relation>,
                        groups: map<Name, seq<Name>>): string
  {
    ProblemLine(problem) + DomainLine(domain) + ObjectsBlock(objects) + InitBlock(objects, rels, groups)
    + GoalBlock
  }

  /** The template is the two header lines, the two blocks and the goal
      placeholder; it ends in `)` with no final line break, and has one
      line for each header line, object, non-group object and relation,
      and for each block delimiter. */
  lemma SaveTemplateShape(problem: string, domain: string, objects: seq<Name>, rels: seq<Relation>,
                          groups: map<Name, seq<Name>>)
    requires '\n' !in problem && '\n' !in domain
    requires OneLineNames(objects) && OneLineRels(rels)
    ensures var t := SaveTemplate(problem, domain, objects, rels, groups);
            && t[|t| - 1] == ')'
            && CountChar(t, '\n') == |objects| + |NonGroup(objects, groups)| + |rels| + 9
  {
    var h1, h2 := ProblemLine(problem), DomainLine(domain);
    var ob, ib := ObjectsBlock(objects), InitBlock(objects, rels, groups);
    HeaderLinesCount(problem, domain);
    GoalBlockShape(h1 + h2 + ob + ib);
    ObjectsBlockLines(objects);
    InitBlockLines(objects, rels, groups);
    CountCharConcat(h1, h2, '\n');
    CountCharConcat(h1 + h2, ob, '\n');
    CountCharConcat(h1 + h2 + ob, ib, '\n');
  }

  lemma HeaderLinesCount(problem: string, domain: string)
    requires '\n' !in problem && '\n' !in domain
    ensures CountChar(ProblemLine(problem), '\n') == 1 && CountChar(DomainLine(domain), '\n') == 1
  {
    LineCount("(define (problem " + problem + ")");
    LineCount("(:domain " + domain + ")");
  }

  /** The delimiter lines each hold one line break. */
  lemma DelimiterLines()
    ensures CountChar("(:objects\n", '\n') == 1 && CountChar("(:init\n", '\n') == 1
    ensures CountChar(")\n", '\n') == 1
  {
    assert "(:objects\n" == "(:objects" + "\n";
    LineCount("(:objects");
    assert "(:init\n" == "(:init" + "\n";
    LineCount("(:init");
    assert ")\n" == ")" + "\n";
    LineCount(")");
  }

  lemma GoalBlockShape(prefix: string)
    ensures var t := prefix + GoalBlock;
            t[|t| - 1] == ')' && CountChar(t, '\n') == CountChar(prefix, '\n') + 3
  {
    GoalBlockCount();
    CountCharConcat(prefix, GoalBlock, '\n');
  }

  lemma GoalBlockCount()
    ensures CountChar(GoalBlock, '\n') == 3
  {
    var a, b, c := "(:goal (and", "  <HYPOTHESIS>", "))";
    LineCount(a);
    LineCount(b);
    LineCount(c);
    CountCharAbsent(")", '\n');
    CountCharConcat(a + "\n", b + "\n", '\n');
    assert a + "\n" + b + "\n" == (a + "\n") + (b + "\n");
    CountCharConcat(a + "\n" + b + "\n", c + "\n", '\n');
    assert a + "\n" + b + "\n" + c + "\n" == (a + "\n" + b + "\n") + (c + "\n");
    CountCharConcat(a + "\n" + b + "\n" + c + "\n", ")", '\n');
  }
}
