/** create_goal_states.py: the goal state of each recipe is built from the
    relations of the last frame of its videos. `add_relations` merges a
    frame's relations into the recipe's list, dropping the entries whose
    subject the new relation contradicts; `save_goal` writes one encoded goal
    state per recipe. */
module CreateGoalStates {
  import opened Common
  import opened Ordering
  import opened Text
  import opened Normalizer
  import opened Encoder

  /** `GROUPS['egg']`. */
  const EggVariants: seq<Name> :=
    ["shell_egg", "boiled_egg", "hard-boiled_egg", "broken_egg", "mixed_egg",
     "baked_egg", "ham_egg", "kinshi_egg", "omelette", "scrambled_egg"]

  /** `check_group(relations)` of this script: the group list is the constant. */
  method CheckGroup(relations: array<Triple>) returns (result: seq<Relation>)
    modifies relations
    ensures relations[..] == Rewritten(old(relations[..]), EggVariants)
    ensures result == Normalize(old(relations[..]), EggVariants)
  {
    result := ApplyGroup(relations, EggVariants);
  }

  /** The docstring example of `check_group` (its text misspells two names). */
  lemma CheckGroupExample(ts: seq<Triple>)
    requires ts == [Triple("ham_egg", "on", "A"), Triple("B", "holding", "shell_egg")]
    ensures Normalize(ts, EggVariants)
            == [Binary("egg", "on", "A"), Binary("B", "holding", "egg"),
                Unary("ham_egg", "egg"), Unary("shell_egg", "egg")]
  {
    assert ts[..1] == [ts[0]] && ts[..1][..0] == [] && ts[..2] == ts;
    assert Memberships(ts[0], EggVariants) == [Unary("ham_egg", "egg")];
    assert Memberships(ts[1], EggVariants) == [Unary("shell_egg", "egg")];
    assert Added(ts[..1], EggVariants) == [Unary("ham_egg", "egg")];
  }

  // ---------------------------------------------------------------------
  // add_relations

  /** An element of a recipe's list: a relation tuple appended by the merge,
      or the Python list `list(set(rel))` stored for a new recipe. A tuple
      never equals a list. */
  datatype Entry = Tuple(rel: Relation) | Listed(items: seq<Name>)

  function EntryItems(e: Entry): seq<Name>
  {
    match e
    case Tuple(rel) => Items(rel)
    case Listed(items) => items
  }

  /** `list(set(rel))`: the distinct names of the tuple in an order Python
      leaves unspecified. */
  ghost predicate IsSetListing(listing: seq<Name>, items: seq<Name>)
  {
    NoDup(listing) && (forall x :: x in listing <==> x in items)
  }

  /** `rel[0] == arr[0] and (rel[1] != arr[1] or rel[2] != arr[2])`,
      evaluated left to right with short circuits; an index past the end of
      either sequence raises `IndexError`. */
  function Conflict(a: seq<Name>, b: seq<Name>): (r: Outcome<bool>)
    ensures r.Raised? ==> r.error == IndexError
    ensures a != [] && b != [] && a[0] != b[0] ==> r == Ok(false)
    ensures |a| == 3 && |b| == 3 ==> r == Ok(a[0] == b[0] && a != b)
    ensures |a| == 2 && |b| == 2 ==> (r == Ok(true) <==> a[0] == b[0] && a != b)
    ensures |a| == 2 && |b| == 2 ==> (r.Raised? <==> a == b)
  {
    if a == [] || b == [] then Raised(IndexError)
    else if a[0] != b[0] then Ok(false)
    else if |a| < 2 || |b| < 2 then Raised(IndexError)
    else if a[1] != b[1] then Ok(true)
    else if |a| < 3 || |b| < 3 then Raised(IndexError)
    else Ok(a[2] != b[2])
  }

  /** The `remove` list after scanning the first `n` entries. */
  function ConflictsUpTo(a: seq<Name>, l: seq<Entry>, n: nat): Outcome<seq<nat>>
    requires n <= |l|
  {
    if n == 0 then Ok([])
    else match ConflictsUpTo(a, l, n - 1)
      case Raised(e) => Raised(e)
      case Ok(rm) =>
        match Conflict(a, EntryItems(l[n - 1]))
        case Raised(e) => Raised(e)
        case Ok(c) => Ok(if c then rm + [n - 1] else rm)
  }

  function Conflicts(a: seq<Name>, l: seq<Entry>): Outcome<seq<nat>>
  {
    ConflictsUpTo(a, l, |l|)
  }

  predicate Increasing(xs: seq<nat>)
  {
    forall i, j :: 0 <= i < j < |xs| ==> xs[i] < xs[j]
  }

  /** The scan raises exactly when one of the tests raises, and otherwise
      lists, in ascending order, exactly the positions of the conflicting
      entries. */
  lemma ConflictsUpToSpec(a: seq<Name>, l: seq<Entry>, n: nat)
    requires n <= |l|
    ensures ConflictsUpTo(a, l, n).Raised?
            <==> exists i :: 0 <= i < n && Conflict(a, EntryItems(l[i])).Raised?
    ensures ConflictsUpTo(a, l, n).Ok? ==>
              var rm := ConflictsUpTo(a, l, n).value;
              Increasing(rm) && (forall j :: 0 <= j < |rm| ==> rm[j] < n)
              && (forall i :: 0 <= i < n ==> (i in rm <==> Conflict(a, EntryItems(l[i])) == Ok(true)))
    ensures (forall i :: 0 <= i < n ==> Conflict(a, EntryItems(l[i])) == Ok(false))
            ==> ConflictsUpTo(a, l, n) == Ok([])
    ensures ConflictsUpTo(a, l, n).Raised? ==> ConflictsUpTo(a, l, n).error == IndexError
  {
    ConflictsUpToRaises(a, l, n);
    ConflictsUpToIndices(a, l, n);
    ConflictsUpToNone(a, l, n);
  }

  lemma {:induction false} ConflictsUpToRaises(a: seq<Name>, l: seq<Entry>, n: nat)
    requires n <= |l|
    ensures ConflictsUpTo(a, l, n).Raised?
            <==> exists i :: 0 <= i < n && Conflict(a, EntryItems(l[i])).Raised?
    ensures ConflictsUpTo(a, l, n).Raised? ==> ConflictsUpTo(a, l, n).error == IndexError
  {
    if n > 0 {
      ConflictsUpToRaises(a, l, n - 1);
    }
  }

  lemma {:induction false} ConflictsUpToIndices(a: seq<Name>, l: seq<Entry>, n: nat)
    requires n <= |l|
    ensures ConflictsUpTo(a, l, n).Ok? ==>
              var rm := ConflictsUpTo(a, l, n).value;
              Increasing(rm) && (forall j :: 0 <= j < |rm| ==> rm[j] < n)
              && (forall i :: 0 <= i < n ==> (i in rm <==> Conflict(a, EntryItems(l[i])) == Ok(true)))
  {
    if n > 0 && ConflictsUpTo(a, l, n).Ok? {
      ConflictsUpToIndices(a, l, n - 1);
      var rm0 := ConflictsUpTo(a, l, n - 1).value;
      var c := Conflict(a, EntryItems(l[n - 1]));
      assert ConflictsUpTo(a, l, n - 1).Ok? && c.Ok?;
      var rm := ConflictsUpTo(a, l, n).value;
      if c.value {
        assert rm == rm0 + [n - 1];
        IncreasingSnoc(rm0, n - 1);
      } else {
        assert rm == rm0;
      }
      forall i | 0 <= i < n ensures (i in rm <==> Conflict(a, EntryItems(l[i])) == Ok(true)) {
        if i < n - 1 {
          assert i in rm <==> i in rm0;
        } else {
          assert n - 1 !in rm0;
        }
      }
    }
  }

  /** A position above every listed one keeps the list ascending. */
  lemma IncreasingSnoc(rm: seq<nat>, k: nat)
    requires Increasing(rm) && forall j :: 0 <= j < |rm| ==> rm[j] < k
    ensures Increasing(rm + [k]) && forall j :: 0 <= j < |rm| + 1 ==> (rm + [k])[j] < k + 1
    ensures forall x :: x in rm + [k] <==> x in rm || x == k
  {
    var r := rm + [k];
    forall i, j | 0 <= i < j < |r| ensures r[i] < r[j] {
      if j == |rm| {
        assert r[i] == rm[i];
      } else {
        assert r[i] == rm[i] && r[j] == rm[j];
      }
    }
  }

  lemma {:induction false} ConflictsUpToNone(a: seq<Name>, l: seq<Entry>, n: nat)
    requires n <= |l|
    ensures (forall i :: 0 <= i < n ==> Conflict(a, EntryItems(l[i])) == Ok(false))
            ==> ConflictsUpTo(a, l, n) == Ok([])
  {
    if n > 0 {
      ConflictsUpToNone(a, l, n - 1);
    }
  }

  /** `for i in remove: del dic[key][i]`: each deletion shifts the entries
      after it, and an index past the current end raises `IndexError`, leaving
      the deletions made so far in place. */
  function DeleteAll(l: seq<Entry>, rm: seq<nat>): (r: (seq<Entry>, bool))
    ensures forall e :: e in r.0 ==> e in l
    ensures r.1 ==> |r.0| + |rm| == |l|
    decreases |rm|
  {
    if rm == [] then (l, true)
    else if rm[0] >= |l| then (l, false)
    else
      var l' := l[..rm[0]] + l[rm[0] + 1..];
      assert forall e :: e in l' ==> e in l;
      DeleteAll(l', rm[1..])
  }

  /** One relation merged into an existing recipe list; `false` when an
      `IndexError` escapes. */
  function StepRel(l: seq<Entry>, rel: Relation): (seq<Entry>, bool)
  {
    if Tuple(rel) in l then (l, true)
    else match Conflicts(Items(rel), l)
      case Raised(_) => (l, false)
      case Ok(rm) => if rm == [] then (l + [Tuple(rel)], true) else DeleteAll(l, rm)
  }

  /** `add_relations(dic, key, values)`. A new key stores the first relation
      as the listing `list(set(rel))`; the later ones merge into it. */
  function Merge(dic: map<string, seq<Entry>>, key: string, values: seq<Relation>, listing: seq<Name>)
    : (map<string, seq<Entry>>, bool)
    decreases |values|
  {
    if values == [] then (dic, true)
    else if key in dic then
      var (l, ok) := StepRel(dic[key], values[0]);
      if ok then Merge(dic[key := l], key, values[1..], listing) else (dic[key := l], false)
    else Merge(dic[key := [Listed(listing)]], key, values[1..], listing)
  }

  /** A relation already in the list changes nothing. */
  lemma StepRelDuplicate(l: seq<Entry>, rel: Relation)
    requires Tuple(rel) in l
    ensures StepRel(l, rel) == (l, true)
  {
  }

  /** A new relation whose subject no entry contradicts is appended. */
  lemma StepRelAppends(l: seq<Entry>, rel: Relation)
    requires Tuple(rel) !in l
    requires forall i :: 0 <= i < |l| ==> Conflict(Items(rel), EntryItems(l[i])) == Ok(false)
    ensures StepRel(l, rel) == (l + [Tuple(rel)], true)
  {
    ConflictsUpToSpec(Items(rel), l, |l|);
  }

  /** A relation that contradicts an entry is never appended: it is in the
      result only if it was in the list already. */
  lemma StepRelConflictNotAppended(l: seq<Entry>, rel: Relation, i: nat)
    requires i < |l| && Conflict(Items(rel), EntryItems(l[i])) == Ok(true)
    ensures Tuple(rel) in StepRel(l, rel).0 ==> Tuple(rel) in l
  {
    ConflictsUpToSpec(Items(rel), l, |l|);
  }

  /** With a single conflicting entry, that entry alone is deleted. */
  lemma StepRelSingleConflict(l: seq<Entry>, rel: Relation, i: nat)
    requires Tuple(rel) !in l
    requires Conflicts(Items(rel), l) == Ok([i])
    ensures i < |l|
    ensures StepRel(l, rel) == (l[..i] + l[i + 1..], true)
  {
    ConflictsUpToIndices(Items(rel), l, |l|);
    assert [i][0] == i;
    DeleteOne(l, i);
  }

  lemma DeleteOne(l: seq<Entry>, i: nat)
    requires i < |l|
    ensures DeleteAll(l, [i]) == (l[..i] + l[i + 1..], true)
  {
    assert [i][1..] == [];
  }

  /** Entries of the other recipes are never touched, and the merged key is
      present afterwards as soon as one relation was given. */
  lemma {:induction false} MergeOtherKeys(dic: map<string, seq<Entry>>, key: string, values: seq<Relation>,
                                          listing: seq<Name>)
    ensures var d := Merge(dic, key, values, listing).0;
            (forall k :: k != key ==> (k in d <==> k in dic))
            && (forall k :: k != key && k in dic ==> d[k] == dic[k])
            && (key in d <==> key in dic || values != [])
    decreases |values|
  {
    if values != [] {
      if key in dic {
        var (l, ok) := StepRel(dic[key], values[0]);
        if ok {
          MergeOtherKeys(dic[key := l], key, values[1..], listing);
        }
      } else {
        MergeOtherKeys(dic[key := [Listed(listing)]], key, values[1..], listing);
      }
    }
  }

  /** Relations that are all in the recipe's list already leave the
      dictionary as it is. */
  lemma {:induction false} MergeDuplicates(dic: map<string, seq<Entry>>, key: string, values: seq<Relation>,
                                           listing: seq<Name>)
    requires key in dic
    requires forall i :: 0 <= i < |values| ==> Tuple(values[i]) in dic[key]
    ensures Merge(dic, key, values, listing) == (dic, true)
    decreases |values|
  {
    if values != [] {
      assert dic[key := dic[key]] == dic;
      MergeDuplicates(dic, key, values[1..], listing);
    }
  }

  /** A recipe seen for the first time keeps only the listing of its first
      relation when that is the only one. */
  lemma MergeNewKey(dic: map<string, seq<Entry>>, key: string, rel: Relation, listing: seq<Name>)
    requires key !in dic
    ensures Merge(dic, key, [rel], listing) == (dic[key := [Listed(listing)]], true)
  {
    assert [rel][1..] == [];
  }

  /** The docstring example of `add_relations`: `('A','in','B')` contradicts
      `('A','on','B')`, which is deleted, and `('E','in','F')` is appended. */
  lemma ExampleConflicts(a: seq<Name>, l0: seq<Entry>)
    requires a == ["A", "in", "B"]
    requires l0 == [Tuple(Binary("A", "on", "B")), Tuple(Binary("C", "in", "D"))]
    ensures Conflicts(a, l0) == Ok([0])
  {
    assert Conflict(a, EntryItems(l0[0])) == Ok(true);
    assert Conflict(a, EntryItems(l0[1])) == Ok(false);
    var r0: seq<nat> := [0];
    assert [] + r0 == r0;
    assert ConflictsUpTo(a, l0, 0) == Ok([]);
    assert ConflictsUpTo(a, l0, 1) == Ok(r0);
    assert ConflictsUpTo(a, l0, 2) == Ok(r0);
  }

  lemma AddRelationsExample(dic: map<string, seq<Entry>>, values: seq<Relation>, listing: seq<Name>)
    requires dic == map["f1" := [Tuple(Binary("A", "on", "B")), Tuple(Binary("C", "in", "D"))]]
    requires values == [Binary("A", "in", "B"), Binary("E", "in", "F")]
    ensures Merge(dic, "f1", values, listing)
            == (map["f1" := [Tuple(Binary("C", "in", "D")), Tuple(Binary("E", "in", "F"))]], true)
  {
    var l0 := dic["f1"];
    var l1 := [Tuple(Binary("C", "in", "D"))];
    var l2 := [Tuple(Binary("C", "in", "D")), Tuple(Binary("E", "in", "F"))];
    ExampleConflicts(Items(values[0]), l0);
    StepRelSingleConflict(l0, values[0], 0);
    assert l0[..0] + l0[1..] == l1;
    StepRelAppends(l1, values[1]);
    assert l1 + [Tuple(values[1])] == l2;
    assert values == [values[0], values[1]];
    MergeTwo(dic, "f1", values[0], values[1], listing, l1, l2);
    assert dic["f1" := l2] == map["f1" := l2];
  }

  /** Two relations merged into an existing recipe, one step after the other. */
  lemma MergeTwo(dic: map<string, seq<Entry>>, key: string, v0: Relation, v1: Relation, listing: seq<Name>,
                 l1: seq<Entry>, l2: seq<Entry>)
    requires key in dic && StepRel(dic[key], v0) == (l1, true) && StepRel(l1, v1) == (l2, true)
    ensures Merge(dic, key, [v0, v1], listing) == (dic[key := l2], true)
  {
    var values := [v0, v1];
    var d1 := dic[key := l1];
    assert values[1..] == [v1] && [v1][1..] == [];
    assert Merge(dic, key, values, listing) == Merge(d1, key, [v1], listing);
    assert Merge(d1, key, [v1], listing) == Merge(d1[key := l2], key, [], listing);
    assert d1[key := l2] == dic[key := l2];
  }

  /** Deletion by index from a shrinking list: with conflicts at positions 0
      and 1, the second deletion hits the entry that was at position 2, and
      the conflicting entry first at position 1 survives. */
  lemma ShrinkingDeletionExample(l: seq<Entry>, rel: Relation)
    requires l == [Tuple(Binary("A", "on", "B")), Tuple(Binary("A", "in", "C")), Tuple(Binary("D", "on", "E"))]
    requires rel == Binary("A", "at", "F")
    ensures StepRel(l, rel) == ([Tuple(Binary("A", "in", "C"))], true)
    ensures Conflict(Items(rel), EntryItems(StepRel(l, rel).0[0])) == Ok(true)
  {
    assert Conflicts(Items(rel), l) == Ok([0, 1]) by {
      var a := Items(rel);
      assert Conflict(a, EntryItems(l[0])) == Ok(true);
      assert Conflict(a, EntryItems(l[1])) == Ok(true);
      assert Conflict(a, EntryItems(l[2])) == Ok(false);
      var r0: seq<nat> := [0];
      var r01: seq<nat> := [0, 1];
      assert [] + r0 == r0 && r0 + [1] == r01;
      assert ConflictsUpTo(a, l, 0) == Ok([]);
      assert ConflictsUpTo(a, l, 1) == Ok(r0);
      assert ConflictsUpTo(a, l, 2) == Ok(r01);
      assert ConflictsUpTo(a, l, 3) == Ok(r01);
    }
    var l1 := l[..0] + l[1..];
    assert l1[..1] + l1[2..] == [Tuple(Binary("A", "in", "C"))];
    assert [0, 1][1..] == [1] && [1][1..] == [];
  }

  /** When every entry conflicts, the deletions run past the shrinking end:
      `IndexError` escapes after the first one. */
  lemma DeletionIndexErrorExample(l: seq<Entry>, rel: Relation)
    requires l == [Tuple(Binary("A", "on", "B")), Tuple(Binary("A", "in", "C"))]
    requires rel == Binary("A", "at", "F")
    ensures StepRel(l, rel) == ([Tuple(Binary("A", "in", "C"))], false)
  {
    assert Conflicts(Items(rel), l) == Ok([0, 1]) by {
      var a := Items(rel);
      assert Conflict(a, EntryItems(l[0])) == Ok(true);
      assert Conflict(a, EntryItems(l[1])) == Ok(true);
      var r0: seq<nat> := [0];
      var r01: seq<nat> := [0, 1];
      assert [] + r0 == r0 && r0 + [1] == r01;
      assert ConflictsUpTo(a, l, 0) == Ok([]);
      assert ConflictsUpTo(a, l, 1) == Ok(r0);
      assert ConflictsUpTo(a, l, 2) == Ok(r01);
    }
    assert l[..0] + l[1..] == [Tuple(Binary("A", "in", "C"))];
    assert [0, 1][1..] == [1];
  }

  /** The first-occurrence order of the distinct names: one order
      `list(set(rel))` may produce. */
  function Dedup(xs: seq<Name>): (r: seq<Name>)
    ensures NoDup(r)
    ensures forall x :: x in r <==> x in xs
  {
    if xs == [] then []
    else
      var r := Dedup(xs[..|xs| - 1]);
      assert forall x :: x in xs <==> x in xs[..|xs| - 1] || x == xs[|xs| - 1];
      if xs[|xs| - 1] in r then r else r + [xs[|xs| - 1]]
  }

  /** The `enumerate(dic[key])` loop collecting `remove`. */
  method ScanConflicts(items: seq<Name>, entries: seq<Entry>) returns (r: Outcome<seq<nat>>)
    ensures r == Conflicts(items, entries)
  {
    var remove: seq<nat> := [];
    for j := 0 to |entries|
      invariant ConflictsUpTo(items, entries, j) == Ok(remove)
    {
      var c := Conflict(items, EntryItems(entries[j]));
      if c.Raised? {
        ConflictsUpToSpec(items, entries, |entries|);
        return Raised(IndexError);
      }
      if c.value {
        remove := remove + [j];
      }
    }
    r := Ok(remove);
  }

  /** The `for i in remove: del dic[key][i]` loop. */
  method DeleteIndices(entries: seq<Entry>, remove: seq<nat>) returns (cur: seq<Entry>, ok: bool)
    ensures (cur, ok) == DeleteAll(entries, remove)
  {
    cur := entries;
    for k := 0 to |remove|
      invariant DeleteAll(cur, remove[k..]) == DeleteAll(entries, remove)
    {
      var idx := remove[k];
      assert remove[k..][0] == idx && remove[k..][1..] == remove[k + 1..];
      if idx >= |cur| {
        return cur, false;
      }
      cur := cur[..idx] + cur[idx + 1..];
    }
    assert remove[|remove|..] == [];
    ok := true;
  }

  /** The dictionary `drecipes` that `generate_goal_states` fills. */
  class GoalStates {
    var recipes: map<string, seq<Entry>>

    constructor ()
      ensures recipes == map[]
    {
      recipes := map[];
    }

    /** `add_relations(self.recipes, key, values)`; `ok` is false when an
        `IndexError` escapes, with the changes made before it kept. */
    method AddRelations(key: string, values: seq<Relation>) returns (ok: bool)
      modifies this
      ensures exists listing :: (values != [] ==> IsSetListing(listing, Items(values[0])))
                                && (recipes, ok) == Merge(old(recipes), key, values, listing)
    {
      var listing := if values == [] then [] else Dedup(Items(values[0]));
      assert values != [] ==> IsSetListing(listing, Items(values[0]));
      var i := 0;
      while i < |values|
        invariant 0 <= i <= |values|
        invariant Merge(recipes, key, values[i..], listing) == Merge(old(recipes), key, values, listing)
      {
        var rel := values[i];
        assert values[i..][0] == rel && values[i..][1..] == values[i + 1..];
        if key in recipes {
          var entries := recipes[key];
          if Tuple(rel) !in entries {
            var remove := ScanConflicts(Items(rel), entries);
            if remove.Raised? {
              assert recipes[key := entries] == recipes;
              return false;
            }
            if remove.value != [] {
              var cur, done := DeleteIndices(entries, remove.value);
              recipes := recipes[key := cur];
              if !done {
                return false;
              }
            } else {
              recipes := recipes[key := entries + [Tuple(rel)]];
            }
          } else {
            assert recipes[key := entries] == recipes;
          }
        } else {
          recipes := recipes[key := [Listed(listing)]];
        }
        i := i + 1;
      }
      ok := true;
    }
  }

  // ---------------------------------------------------------------------
  // save_goal

  /** The rows `convert_relations_string` reads from a recipe's list. */
  function EntryRows(l: seq<Entry>): (rows: seq<seq<Name>>)
    ensures |rows| == |l|
    ensures forall i :: 0 <= i < |l| ==> rows[i] == EntryItems(l[i])
  {
    seq(|l|, i requires 0 <= i < |l| => EntryItems(l[i]))
  }

  /** What `save_goal` is given: the recipes dictionary, or the list of a
      single file. */
  datatype Goals = Recipes(recipes: map<string, seq<Entry>>) | Single(rels: seq<Relation>)

  function RecipeLine(m: map<string, seq<Entry>>, k: string): Outcome<string>
    requires k in m
  {
    Encode(EntryRows(m[k]))
  }

  /** `content` after the loop over `keys`: one encoding and a newline per
      recipe; the first encoding that raises ends the loop. */
  function LinesContent(m: map<string, seq<Entry>>, keys: seq<string>): Outcome<string>
    requires forall i :: 0 <= i < |keys| ==> keys[i] in m
  {
    if keys == [] then Ok("")
    else match LinesContent(m, keys[..|keys| - 1])
      case Raised(e) => Raised(e)
      case Ok(c) =>
        match RecipeLine(m, keys[|keys| - 1])
        case Raised(e) => Raised(e)
        case Ok(line) => Ok(c + line + "\n")
  }

  /** The keys of a set in some order. */
  ghost function SetToSeq(s: set<string>): (r: seq<string>)
    ensures NoDup(r)
    ensures forall x :: x in r <==> x in s
  {
    if s == {} then []
    else
      var x :| x in s;
      var r := SetToSeq(s - {x});
      r + [x]
  }

  /** `sorted(relations)` on the dictionary's keys. */
  ghost function SortedKeys(m: map<string, seq<Entry>>): seq<string>
  {
    Sort(SetToSeq(m.Keys), StrLe)
  }

  ghost function SaveGoalContent(g: Goals): Outcome<string>
  {
    match g
    case Recipes(m) =>
      SortedKeysSpec(m);
      LinesContent(m, SortedKeys(m))
    case Single(rels) => Encode(Rows(rels))
  }

  lemma {:induction false} NoDupCount<T>(a: seq<T>, x: T)
    requires NoDup(a)
    ensures multiset(a)[x] == if x in a then 1 else 0
  {
    if a != [] {
      var init := a[..|a| - 1];
      assert a == init + [a[|a| - 1]];
      assert NoDup(init);
      NoDupCount(init, x);
      if x == a[|a| - 1] {
        assert x !in init;
      }
    }
  }

  /** Two duplicate-free sequences with the same elements are permutations
      of each other. */
  lemma NoDupPermutation<T>(a: seq<T>, b: seq<T>)
    requires NoDup(a) && NoDup(b)
    requires forall x :: x in a <==> x in b
    ensures multiset(a) == multiset(b)
  {
    forall x ensures multiset(a)[x] == multiset(b)[x] {
      NoDupCount(a, x);
      NoDupCount(b, x);
    }
  }

  /** A permutation of a duplicate-free sequence is duplicate-free and has
      the same elements. */
  lemma PermutationNoDup<T>(a: seq<T>, b: seq<T>)
    requires NoDup(a) && multiset(a) == multiset(b)
    ensures NoDup(b)
    ensures forall x :: x in b <==> x in a
  {
    forall x ensures x in b <==> x in a {
      assert x in b <==> x in multiset(b);
      assert x in a <==> x in multiset(a);
    }
    forall i, j | 0 <= i < j < |b| ensures b[i] != b[j] {
      if b[i] == b[j] {
        var x := b[i];
        assert b == b[..j] + [x] + b[j + 1..];
        assert x in b[..j] by { assert b[..j][i] == x; }
        assert multiset(b)[x] >= 2 by {
          assert multiset(b) == multiset(b[..j]) + multiset{x} + multiset(b[j + 1..]);
        }
        NoDupCount(a, x);
      }
    }
  }

  /** The recipes are visited once each, in ascending order. */
  lemma SortedKeysSpec(m: map<string, seq<Entry>>)
    ensures SortedBy(SortedKeys(m), StrLe)
    ensures forall k :: k in SortedKeys(m) <==> k in m
    ensures NoDup(SortedKeys(m))
    ensures |SortedKeys(m)| == |m.Keys|
  {
    StrLeIsTotalOrder();
    var ks := SetToSeq(m.Keys);
    SortIsSorted(ks, StrLe);
    PermutationNoDup(ks, Sort(ks, StrLe));
    SetToSeqCard(m.Keys);
    assert |multiset(ks)| == |multiset(Sort(ks, StrLe))|;
  }

  lemma {:induction false} SetToSeqCard(s: set<string>)
    ensures |SetToSeq(s)| == |s|
  {
    if s != {} {
      var r := SetToSeq(s);
      var x := r[|r| - 1];
      var init := r[..|r| - 1];
      assert r == init + [x];
      assert forall y :: y in init <==> y in s - {x} by {
        forall y ensures y in init <==> y in s - {x} {
          if y in init {
            var k :| 0 <= k < |init| && init[k] == y;
            assert r[k] == y && k < |r| - 1;
          }
        }
      }
      assert NoDup(init);
      NoDupPermutation(init, SetToSeq(s - {x}));
      SetToSeqCard(s - {x});
    }
  }

  /** `sorted(relations)` for a dictionary: its keys in ascending order. */
  method SortedRecipes(m: map<string, seq<Entry>>) returns (keys: seq<string>)
    ensures keys == SortedKeys(m)
  {
    var ks: seq<string> := [];
    var rest := m.Keys;
    while rest != {}
      invariant NoDup(ks)
      invariant forall k :: k in ks <==> k in m && k !in rest
      invariant rest <= m.Keys
      decreases rest
    {
      var k :| k in rest;
      ks := ks + [k];
      rest := rest - {k};
    }
    keys := Sort(ks, StrLe);
    StrLeIsTotalOrder();
    SortIsSorted(ks, StrLe);
    SortedKeysSpec(m);
    NoDupPermutation(ks, SetToSeq(m.Keys));
    SortedUnique(keys, SortedKeys(m), StrLe);
  }

  /** `save_goal(relations, fname)`: the content written to `fname`. */
  method SaveGoal(g: Goals) returns (content: Outcome<string>)
    ensures content == SaveGoalContent(g)
  {
    if g.Single? {
      content := ConvertRelationsString(Rows(g.rels));
      return;
    }
    var keys := SortedRecipes(g.recipes);
    SortedKeysSpec(g.recipes);
    content := SaveLines(g.recipes, keys);
  }

  /** The loop over the sorted recipes. */
  method SaveLines(m: map<string, seq<Entry>>, keys: seq<string>) returns (content: Outcome<string>)
    requires forall k :: k in keys ==> k in m
    ensures content == LinesContent(m, keys)
  {
    var text := "";
    for i := 0 to |keys|
      invariant LinesContent(m, keys[..i]) == Ok(text)
    {
      assert keys[..i + 1][..i] == keys[..i] && keys[..i + 1][i] == keys[i];
      var line := ConvertRelationsString(EntryRows(m[keys[i]]));
      if line.Raised? {
        LinesContentRaises(m, keys, i);
        return line;
      }
      text := text + line.value + "\n";
    }
    assert keys[..|keys|] == keys;
    content := Ok(text);
  }

  /** The dictionary form writes, in ascending key order, one encoding
      followed by a newline per recipe. */
  lemma {:induction false} LinesContentSpec(m: map<string, seq<Entry>>, keys: seq<string>, lines: seq<string>)
    requires forall i :: 0 <= i < |keys| ==> keys[i] in m
    requires |lines| == |keys|
    requires forall i :: 0 <= i < |keys| ==> RecipeLine(m, keys[i]) == Ok(lines[i])
    ensures LinesContent(m, keys) == Ok(JoinLines(lines))
  {
    if keys != [] {
      var n := |keys| - 1;
      var front, before := keys[..n], lines[..n];
      assert lines == before + [lines[n]];
      LinesContentSpec(m, front, before);
      JoinLinesSnoc(before, lines[n]);
    }
  }

  /** The first encoding that raises makes the whole content raise. */
  lemma {:induction false} LinesContentRaises(m: map<string, seq<Entry>>, keys: seq<string>, i: nat)
    requires forall j :: 0 <= j < |keys| ==> keys[j] in m
    requires i < |keys| && LinesContent(m, keys[..i]).Ok? && RecipeLine(m, keys[i]).Raised?
    ensures LinesContent(m, keys) == RecipeLine(m, keys[i])
  {
    var n := |keys| - 1;
    var front := keys[..n];
    assert keys == front + [keys[n]];
    if i < n {
      assert front[..i] == keys[..i] && front[i] == keys[i];
      LinesContentRaises(m, front, i);
    } else {
      assert front == keys[..i];
    }
  }

  predicate NoNewlineNames(l: seq<Entry>)
  {
    forall i, j :: 0 <= i < |l| && 0 <= j < |EntryItems(l[i])| ==> '\n' !in EntryItems(l[i])[j]
  }

  /** With names free of newlines, the file holds one line per recipe. */
  lemma {:induction false} LinesContentLineCount(m: map<string, seq<Entry>>, keys: seq<string>)
    requires forall i :: 0 <= i < |keys| ==> keys[i] in m
    requires forall k :: k in m ==> NoNewlineNames(m[k])
    requires LinesContent(m, keys).Ok?
    ensures CountChar(LinesContent(m, keys).value, '\n') == |keys|
  {
    if keys != [] {
      var n := |keys| - 1;
      LinesContentLineCount(m, keys[..n]);
      var c := LinesContent(m, keys[..n]).value;
      var line := RecipeLine(m, keys[n]).value;
      EncodeOneLine(EntryRows(m[keys[n]]));
      LineCount(line);
      CountCharConcat(c, line + "\n", '\n');
      assert c + line + "\n" == c + (line + "\n");
    }
  }

  lemma SaveGoalLineCount(m: map<string, seq<Entry>>)
    requires forall k :: k in m ==> NoNewlineNames(m[k])
    requires SaveGoalContent(Recipes(m)).Ok?
    ensures CountChar(SaveGoalContent(Recipes(m)).value, '\n') == |m.Keys|
  {
    SortedKeysSpec(m);
    LinesContentLineCount(m, SortedKeys(m));
  }

  /** The list form writes a single encoding and no newline. */
  lemma SaveGoalSingleLine(rels: seq<Relation>)
    requires forall i, j :: 0 <= i < |rels| && 0 <= j < |Items(rels[i])| ==> '\n' !in Items(rels[i])[j]
    requires SaveGoalContent(Single(rels)).Ok?
    ensures '\n' !in SaveGoalContent(Single(rels)).value
  {
    EncodeOneLine(Rows(rels));
  }

  // ---------------------------------------------------------------------
  // The recipe key

  /** `filename(file_input, extension=False)[2:]`: the file's stem without
      its first two characters, which are meant to be `<digit>-`. */
  function RecipeKey(stem: string): (k: string)
    ensures |k| == if |stem| < 2 then 0 else |stem| - 2
    ensures |stem| >= 2 ==> stem == stem[..2] + k
  {
    if |stem| < 2 then "" else stem[2..]
  }

  /** Videos `1-r` to `9-r` share the recipe key `r`. */
  lemma RecipeKeySingleDigit(d: char, r: string)
    requires IsDigit(d)
    ensures RecipeKey([d, '-'] + r) == r
  {
    assert ([d, '-'] + r)[2..] == r;
  }

  /** A two-digit number keeps its dash: `10-boiledegg` is filed under
      `-boiledegg`, not with `1-boiledegg`. */
  lemma RecipeKeyTwoDigits(stem: string)
    requires stem == "10-boiledegg"
    ensures RecipeKey(stem) == "-boiledegg"
    ensures RecipeKey(stem) != RecipeKey("1-boiledegg")
  {
    assert "1-boiledegg"[2..] == "boiledegg";
  }
}
