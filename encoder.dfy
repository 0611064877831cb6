/** `convert_relations_string` of create_goal_states.py and run_recognizer.py
    (the two copies are identical): the observation / goal-state line sent to
    the recognizer. Each row is the positional view of a Python tuple or list;
    a 2-row `(s, o)` prints `(s o1)`, a 3-row `(s, r, o)` prints `(r s1 o1)`,
    and every object name collected in `dobj` is printed first as `(name1)`.
    The separator after the last atom is cut off. */
module Encoder {
  import opened Common

  predicate Shaped(row: seq<Name>) { |row| == 2 || |row| == 3 }

  function Atom(row: seq<Name>): string
    requires Shaped(row)
  {
    if |row| == 2 then "(" + row[0] + " " + row[1] + "1)"
    else "(" + row[1] + " " + row[0] + "1 " + row[2] + "1)"
  }

  /** The atoms of the rows that print one, in row order. */
  function Atoms(rows: seq<seq<Name>>): seq<string>
  {
    if rows == [] then []
    else Atoms(rows[..|rows| - 1]) + (if Shaped(rows[|rows| - 1]) then [Atom(rows[|rows| - 1])] else [])
  }

  /** The accumulated `content`: each atom followed by a comma. */
  function Content(rows: seq<seq<Name>>): string
  {
    if rows == [] then ""
    else Content(rows[..|rows| - 1])
         + (if Shaped(rows[|rows| - 1]) then Atom(rows[|rows| - 1]) + "," else "")
  }

  /** The names one row stores into `dobj`, in the order it stores them. */
  function RowKeys(row: seq<Name>): seq<Name>
  {
    if |row| == 2 then [row[1]] else if |row| == 3 then [row[0], row[2]] else []
  }

  /** `dobj[k] = ''` on the key list of `dobj`. */
  function AddKey(keys: seq<Name>, k: Name): seq<Name>
  {
    if k in keys then keys else keys + [k]
  }

  function AddKeys(keys: seq<Name>, ks: seq<Name>): seq<Name>
    decreases ks
  {
    if ks == [] then keys else AddKeys(AddKey(keys, ks[0]), ks[1..])
  }

  /** The keys of `dobj` after the loop, in insertion order. */
  function Keys(rows: seq<seq<Name>>): seq<Name>
  {
    if rows == [] then [] else AddKeys(Keys(rows[..|rows| - 1]), RowKeys(rows[|rows| - 1]))
  }

  function Prefix(keys: seq<Name>): string
  {
    if keys == [] then "" else Prefix(keys[..|keys| - 1]) + "(" + keys[|keys| - 1] + "1),"
  }

  /** Python's `s[:-1]`. */
  function DropLast(s: string): string
  {
    if s == [] then [] else s[..|s| - 1]
  }

  /** The string `convert_relations_string` returns. A first row that is
      neither a pair nor a triple leaves `o` unbound when `dobj[o]` runs
      (`UnboundLocalError`); a later one re-stores the previous `o`, which
      changes nothing. */
  function Encode(rows: seq<seq<Name>>): (r: Outcome<string>)
    ensures rows == [] ==> r == Ok("")
  {
    if rows == [] then Ok("")
    else if !Shaped(rows[0]) then Raised(NameError)
    else Ok(Prefix(Keys(rows)) + DropLast(Content(rows)))
  }

  /** A name is an object of a row when the row stores it into `dobj`: the
      second component of a pair, the first or third of a triple. */
  predicate IsObjectOf(n: Name, row: seq<Name>)
  {
    (|row| == 2 && n == row[1]) || (|row| == 3 && (n == row[0] || n == row[2]))
  }

  lemma {:induction false} AddKeysSpec(keys: seq<Name>, ks: seq<Name>)
    requires NoDup(keys)
    ensures NoDup(AddKeys(keys, ks))
    ensures forall n :: n in AddKeys(keys, ks) <==> n in keys || n in ks
    ensures keys <= AddKeys(keys, ks)
    decreases ks
  {
    if ks != [] {
      AddKeysSpec(AddKey(keys, ks[0]), ks[1..]);
    }
  }

  lemma AddKeysPair(keys: seq<Name>, a: Name, b: Name)
    ensures AddKeys(keys, [a, b]) == AddKey(AddKey(keys, a), b)
    ensures AddKeys(keys, [a]) == AddKey(keys, a)
  {
    assert [a, b][1..] == [b];
    assert [a][1..] == [];
    assert [b][1..] == [];
    assert AddKeys(AddKey(keys, a), [b]) == AddKeys(AddKey(AddKey(keys, a), b), []);
    assert AddKeys(keys, [a]) == AddKeys(AddKey(keys, a), []);
  }

  /** Every object of the rows is printed exactly once in the prefix, and no
      other name is. */
  lemma {:induction false} KeysExactlyTheObjects(rows: seq<seq<Name>>)
    ensures NoDup(Keys(rows))
    ensures forall n :: n in Keys(rows) <==> exists i :: 0 <= i < |rows| && IsObjectOf(n, rows[i])
  {
    if rows != [] {
      var init := rows[..|rows| - 1];
      var last := rows[|rows| - 1];
      KeysExactlyTheObjects(init);
      AddKeysSpec(Keys(init), RowKeys(last));
      forall n ensures n in RowKeys(last) <==> IsObjectOf(n, last) { }
      forall n ensures (exists i :: 0 <= i < |rows| && IsObjectOf(n, rows[i]))
                       <==> (exists i :: 0 <= i < |init| && IsObjectOf(n, init[i])) || IsObjectOf(n, last)
      {
        if exists i :: 0 <= i < |rows| && IsObjectOf(n, rows[i]) {
          var i :| 0 <= i < |rows| && IsObjectOf(n, rows[i]);
          if i < |init| { assert init[i] == rows[i]; }
        }
        if exists i :: 0 <= i < |init| && IsObjectOf(n, init[i]) {
          var i :| 0 <= i < |init| && IsObjectOf(n, init[i]);
          assert rows[i] == init[i];
        }
      }
    }
  }

  /** Comma-separated atoms, written independently of the loop. */
  function JoinComma(atoms: seq<string>): string
  {
    if atoms == [] then ""
    else if |atoms| == 1 then atoms[0]
    else atoms[0] + "," + JoinComma(atoms[1..])
  }

  lemma {:induction false} JoinCommaSnoc(atoms: seq<string>, a: string)
    requires atoms != []
    ensures JoinComma(atoms + [a]) == JoinComma(atoms) + "," + a
  {
    if |atoms| == 1 {
      assert (atoms + [a])[1..] == [a];
    } else {
      assert (atoms + [a])[1..] == atoms[1..] + [a];
      JoinCommaSnoc(atoms[1..], a);
    }
  }

  lemma {:induction false} ContentIsTerminatedAtoms(rows: seq<seq<Name>>)
    ensures Content(rows) == (if Atoms(rows) == [] then "" else JoinComma(Atoms(rows)) + ",")
  {
    if rows != [] {
      var init := rows[..|rows| - 1];
      ContentIsTerminatedAtoms(init);
      var last := rows[|rows| - 1];
      if Shaped(last) {
        assert Atoms(rows) == Atoms(init) + [Atom(last)];
        if Atoms(init) != [] {
          JoinCommaSnoc(Atoms(init), Atom(last));
        } else {
          assert Atoms(rows) == [Atom(last)];
        }
      } else {
        assert Atoms(rows) == Atoms(init);
      }
    }
  }

  /** After the prefix come the atoms of the rows, in order, joined by commas:
      no separator trails the last one. */
  lemma EncodeIsPrefixAndAtoms(rows: seq<seq<Name>>)
    requires rows == [] || Shaped(rows[0])
    ensures Encode(rows) == Ok(Prefix(Keys(rows)) + JoinComma(Atoms(rows)))
  {
    ContentIsTerminatedAtoms(rows);
    var c := Content(rows);
    if rows != [] {
      AtomsNonEmpty(rows);
      assert DropLast(c) == JoinComma(Atoms(rows)) by {
        assert c == JoinComma(Atoms(rows)) + ",";
        assert c[..|c| - 1] == JoinComma(Atoms(rows));
      }
      assert Encode(rows) == Ok(Prefix(Keys(rows)) + DropLast(c));
    } else {
      assert Keys(rows) == [] && Atoms(rows) == [];
      assert Prefix([]) + JoinComma([]) == "";
    }
  }

  lemma {:induction false} AtomsNonEmpty(rows: seq<seq<Name>>)
    requires rows != [] && Shaped(rows[0])
    ensures Atoms(rows) != []
  {
    if |rows| > 1 {
      assert rows[..|rows| - 1][0] == rows[0];
      AtomsNonEmpty(rows[..|rows| - 1]);
    }
  }

  lemma {:induction false} JoinCommaEndsClosed(atoms: seq<string>)
    requires atoms != []
    requires forall i :: 0 <= i < |atoms| ==> atoms[i] != [] && atoms[i][|atoms[i]| - 1] == ')'
    ensures var s := JoinComma(atoms); s != [] && s[|s| - 1] == ')'
  {
    if |atoms| > 1 {
      JoinCommaEndsClosed(atoms[1..]);
    }
  }

  lemma {:induction false} AtomsClosed(rows: seq<seq<Name>>)
    ensures forall i :: 0 <= i < |Atoms(rows)| ==>
              Atoms(rows)[i] != [] && Atoms(rows)[i][|Atoms(rows)[i]| - 1] == ')'
  {
    if rows != [] {
      AtomsClosed(rows[..|rows| - 1]);
    }
  }

  /** The encoding never ends in a separator: it is empty (no rows) or its
      last character closes an atom. */
  lemma EncodeNoTrailingComma(rows: seq<seq<Name>>)
    requires Encode(rows).Ok?
    ensures var s := Encode(rows).value;
            (rows == [] <==> s == "") && (s != "" ==> s[|s| - 1] == ')')
  {
    if rows != [] {
      EncodeIsPrefixAndAtoms(rows);
      AtomsNonEmpty(rows);
      AtomsClosed(rows);
      JoinCommaEndsClosed(Atoms(rows));
    }
  }

  /** The docstring's example, as the code evaluates it (the docstring itself
      shows `(A),(B),(typeC),(on A1 B1),(typeC C)`). */
  lemma DocstringExample(rows: seq<seq<Name>>)
    requires rows == [["A", "on", "B"], ["C", "typeC"]]
    ensures Encode(rows) == Ok("(A1),(B1),(typeC1),(on A1 B1),(C typeC1)")
  {
    ExampleKeys(rows);
    ExampleContent(rows);
    var k: seq<Name> := ["A", "B", "typeC"];
    ExamplePrefix(k);
    var c := "(on A1 B1),(C typeC1),";
    assert DropLast(c) == "(on A1 B1),(C typeC1)" by {
      assert c[..|c| - 1] == "(on A1 B1),(C typeC1)";
    }
    assert Shaped(rows[0]);
    assert Encode(rows) == Ok("(A1),(B1),(typeC1)," + "(on A1 B1),(C typeC1)");
    assert "(A1),(B1),(typeC1)," + "(on A1 B1),(C typeC1)" == "(A1),(B1),(typeC1),(on A1 B1),(C typeC1)";
  }

  lemma ExampleKeys(rows: seq<seq<Name>>)
    requires rows == [["A", "on", "B"], ["C", "typeC"]]
    ensures Keys(rows) == ["A", "B", "typeC"]
  {
    StepOf(rows, 0);
    StepOf(rows, 1);
    assert rows[..0] == [] && rows[..2] == rows;
    assert RowKeys(rows[0]) == ["A", "B"] && RowKeys(rows[1]) == ["typeC"];
    AddKeysPair([], "A", "B");
    AddKeysPair(["A", "B"], "typeC", "typeC");
  }

  lemma ExamplePrefix(k: seq<Name>)
    requires k == ["A", "B", "typeC"]
    ensures Prefix(k) == "(A1),(B1),(typeC1),"
  {
    PrefixStep(k[..0], k[0]);
    PrefixStep(k[..1], k[1]);
    PrefixStep(k[..2], k[2]);
    assert k[..0] + [k[0]] == k[..1] && k[..1] + [k[1]] == k[..2] && k[..2] + [k[2]] == k;
  }

  lemma ExampleContent(rows: seq<seq<Name>>)
    requires rows == [["A", "on", "B"], ["C", "typeC"]]
    ensures Content(rows) == "(on A1 B1),(C typeC1),"
  {
    var t, p := rows[0], rows[1];
    ExampleAtoms(t, p);
    ContentTwo(t, p);
    assert rows == [t, p];
    ExampleJoin(Atom(t), Atom(p));
  }

  lemma ExampleJoin(x: string, y: string)
    requires x == "(on A1 B1)" && y == "(C typeC1)"
    ensures x + "," + (y + ",") == "(on A1 B1),(C typeC1),"
  {
  }

  lemma ContentTwo(a: seq<Name>, b: seq<Name>)
    requires Shaped(a) && Shaped(b)
    ensures Content([a, b]) == Atom(a) + "," + (Atom(b) + ",")
  {
    var rows := [a, b];
    assert rows[..1] == [a] && rows[..0] == [];
    assert Content([a]) == Atom(a) + ",";
  }

  lemma ExampleAtoms(triple: seq<Name>, pair: seq<Name>)
    requires triple == ["A", "on", "B"] && pair == ["C", "typeC"]
    ensures Atom(triple) == "(on A1 B1)" && Atom(pair) == "(C typeC1)"
  {
  }

  lemma PrefixStep(keys: seq<Name>, k: Name)
    ensures Prefix(keys + [k]) == Prefix(keys) + "(" + k + "1),"
  {
    assert (keys + [k])[..|keys|] == keys;
  }

  /** One iteration of the loop over the rows, on the specification side. */
  lemma StepOf(rows: seq<seq<Name>>, i: nat)
    requires i < |rows|
    ensures Keys(rows[..i + 1]) == AddKeys(Keys(rows[..i]), RowKeys(rows[i]))
    ensures Content(rows[..i + 1])
            == Content(rows[..i]) + (if Shaped(rows[i]) then Atom(rows[i]) + "," else "")
  {
    assert rows[..i + 1][..i] == rows[..i] && rows[..i + 1][i] == rows[i];
  }

  /** Rows whose names hold no newline encode to a single line. */
  lemma {:induction false} EncodeOneLine(rows: seq<seq<Name>>)
    requires forall i, j :: 0 <= i < |rows| && 0 <= j < |rows[i]| ==> '\n' !in rows[i][j]
    requires Encode(rows).Ok?
    ensures '\n' !in Encode(rows).value
  {
    ContentOneLine(rows);
    KeysExactlyTheObjects(rows);
    forall i | 0 <= i < |Keys(rows)| ensures '\n' !in Keys(rows)[i] {
      var n := Keys(rows)[i];
      assert n in Keys(rows);
      var k :| 0 <= k < |rows| && IsObjectOf(n, rows[k]);
    }
    PrefixOneLine(Keys(rows));
  }

  lemma {:induction false} ContentOneLine(rows: seq<seq<Name>>)
    requires forall i, j :: 0 <= i < |rows| && 0 <= j < |rows[i]| ==> '\n' !in rows[i][j]
    ensures '\n' !in Content(rows)
  {
    if rows != [] {
      ContentOneLine(rows[..|rows| - 1]);
    }
  }

  lemma {:induction false} PrefixOneLine(keys: seq<Name>)
    requires forall i :: 0 <= i < |keys| ==> '\n' !in keys[i]
    ensures '\n' !in Prefix(keys)
  {
    if keys != [] {
      PrefixOneLine(keys[..|keys| - 1]);
    }
  }

  /** The second loop of `convert_relations_string`: one `(k1),` per key. */
  method ObjectsString(dobj: seq<Name>) returns (objects: string)
    ensures objects == Prefix(dobj)
  {
    objects := "";
    for j := 0 to |dobj|
      invariant objects == Prefix(dobj[..j])
    {
      objects := objects + "(" + dobj[j] + "1),";
      assert dobj[..j + 1][..j] == dobj[..j];
    }
    assert dobj[..|dobj|] == dobj;
  }

  /** The loop of `convert_relations_string`: `content` and the key list of
      `dobj` are accumulated row by row, then the prefix is printed from
      `dobj`. */
  method ConvertRelationsString(rows: seq<seq<Name>>) returns (r: Outcome<string>)
    ensures r == Encode(rows)
  {
    var content := "";
    var dobj: seq<Name> := [];
    var o: Option<Name> := None;
    for i := 0 to |rows|
      invariant content == Content(rows[..i])
      invariant dobj == Keys(rows[..i])
      invariant i == 0 <==> o.None?
      invariant i > 0 ==> Shaped(rows[0]) && o.value in dobj
    {
      var arr := rows[i];
      StepOf(rows, i);
      if |arr| == 2 {
        content := content + (Atom(arr) + ",");
        o := Some(arr[1]);
      } else if |arr| == 3 {
        dobj := AddKey(dobj, arr[0]);
        content := content + (Atom(arr) + ",");
        o := Some(arr[2]);
      }
      if o.None? {
        assert i == 0 && !Shaped(rows[0]);
        return Raised(NameError);
      }
      if |arr| == 3 {
        AddKeysPair(Keys(rows[..i]), arr[0], arr[2]);
      } else if |arr| == 2 {
        AddKeysPair(Keys(rows[..i]), arr[1], arr[1]);
      } else {
        assert RowKeys(arr) == [];
        assert AddKey(dobj, o.value) == dobj;
      }
      dobj := AddKey(dobj, o.value);
    }
    assert rows[..|rows|] == rows;
    var objects := ObjectsString(dobj);
    r := Ok(objects + DropLast(content));
    if rows == [] {
      assert objects + DropLast(content) == "";
    }
  }
}
