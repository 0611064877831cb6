/** `check_group`: every subject or object that is a variant of the `egg`
    group is rewritten, in place, to `egg`, and a membership pair
    `(variant, 'egg')` is collected for each rewrite; the result is the
    rewritten list followed by the collected pairs. The three scripts carry
    copies of this loop that differ only in where the variant list comes from. */
module Normalizer {
  import opened Common

  function Canonical(x: Name, members: seq<Name>): Name
  {
    if x in members then Egg else x
  }

  function RewriteTriple(t: Triple, members: seq<Name>): Triple
  {
    Triple(Canonical(t.s, members), t.r, Canonical(t.o, members))
  }

  /** The pairs collected while rewriting one triple: subject first. */
  function Memberships(t: Triple, members: seq<Name>): seq<Relation>
  {
    (if t.s in members then [Unary(t.s, Egg)] else [])
    + (if t.o in members then [Unary(t.o, Egg)] else [])
  }

  function Rewritten(ts: seq<Triple>, members: seq<Name>): (r: seq<Triple>)
    ensures |r| == |ts|
    ensures forall i :: 0 <= i < |ts| ==> r[i] == RewriteTriple(ts[i], members)
  {
    seq(|ts|, i requires 0 <= i < |ts| => RewriteTriple(ts[i], members))
  }

  /** The `addegg` list after scanning `ts` from the left. */
  function Added(ts: seq<Triple>, members: seq<Name>): seq<Relation>
  {
    if ts == [] then [] else Added(ts[..|ts| - 1], members) + Memberships(ts[|ts| - 1], members)
  }

  function Normalize(ts: seq<Triple>, members: seq<Name>): seq<Relation>
  {
    AsBinary(Rewritten(ts, members)) + Added(ts, members)
  }

  /** How many subjects and objects of `ts` are group variants. */
  function EndpointCount(ts: seq<Triple>, members: seq<Name>): nat
  {
    if ts == [] then 0
    else (if ts[0].s in members then 1 else 0) + (if ts[0].o in members then 1 else 0)
         + EndpointCount(ts[1..], members)
  }

  /** The pairs are collected in scan order: scanning `a + b` collects the
      pairs of `a`, then those of `b`. */
  lemma {:induction false} AddedAppend(a: seq<Triple>, b: seq<Triple>, members: seq<Name>)
    ensures Added(a + b, members) == Added(a, members) + Added(b, members)
    decreases |b|
  {
    if b == [] {
      assert a + b == a;
    } else {
      var n := |b| - 1;
      assert (a + b)[..|a + b| - 1] == a + b[..n];
      AddedAppend(a, b[..n], members);
    }
  }

  lemma {:induction false} AddedCount(ts: seq<Triple>, members: seq<Name>)
    ensures |Added(ts, members)| == EndpointCount(ts, members)
    ensures forall j :: 0 <= j < |Added(ts, members)| ==>
              Added(ts, members)[j].Unary? && Added(ts, members)[j].s in members
              && Added(ts, members)[j].o == Egg
  {
    if ts != [] {
      assert ts == [ts[0]] + ts[1..];
      AddedAppend([ts[0]], ts[1..], members);
      AddedCount(ts[1..], members);
      assert Added([ts[0]], members) == Memberships(ts[0], members) by {
        assert [ts[0]][..0] == [];
      }
    }
  }

  /** The shape of `check_group`'s result: one rewritten triple per input
      position, in order, an input triple without a variant endpoint kept as
      it is, and then one `(variant, 'egg')` pair per variant endpoint. */
  lemma NormalizeShape(ts: seq<Triple>, members: seq<Name>)
    ensures |Normalize(ts, members)| == |ts| + EndpointCount(ts, members)
    ensures forall i :: 0 <= i < |ts| ==>
              Normalize(ts, members)[i]
              == Binary(Canonical(ts[i].s, members), ts[i].r, Canonical(ts[i].o, members))
    ensures forall i :: 0 <= i < |ts| && ts[i].s !in members && ts[i].o !in members ==>
              Normalize(ts, members)[i] == Binary(ts[i].s, ts[i].r, ts[i].o)
    ensures forall j :: |ts| <= j < |Normalize(ts, members)| ==>
              Normalize(ts, members)[j].Unary? && Normalize(ts, members)[j].s in members
              && Normalize(ts, members)[j].o == Egg
  {
    AddedCount(ts, members);
  }

  /** Idempotence: once every name is canonical (and `egg` is not itself a
      variant), a second pass rewrites nothing and collects no pair. */
  lemma {:induction false} NormalizeIdempotent(ts: seq<Triple>, members: seq<Name>)
    requires Egg !in members
    ensures Rewritten(Rewritten(ts, members), members) == Rewritten(ts, members)
    ensures Normalize(Rewritten(ts, members), members) == AsBinary(Rewritten(ts, members))
  {
    NoVariantsAddNothing(Rewritten(ts, members), members);
  }

  lemma {:induction false} NoVariantsAddNothing(ts: seq<Triple>, members: seq<Name>)
    requires forall i :: 0 <= i < |ts| ==> ts[i].s !in members && ts[i].o !in members
    ensures Added(ts, members) == []
  {
    if ts != [] {
      NoVariantsAddNothing(ts[..|ts| - 1], members);
    }
  }

  /** The loop of `check_group` over the caller's list. */
  method ApplyGroup(relations: array<Triple>, members: seq<Name>) returns (result: seq<Relation>)
    modifies relations
    ensures relations[..] == Rewritten(old(relations[..]), members)
    ensures result == Normalize(old(relations[..]), members)
  {
    ghost var input := relations[..];
    var addegg: seq<Relation> := [];
    for i := 0 to relations.Length
      invariant relations[..i] == Rewritten(input[..i], members)
      invariant relations[i..] == input[i..]
      invariant addegg == Added(input[..i], members)
    {
      var Triple(s, r, o) := relations[i];
      assert relations[i] == input[i] by { assert relations[i..][0] == input[i..][0]; }
      if s in members {
        addegg := addegg + [Unary(s, Egg)];
        s := Egg;
      }
      if o in members {
        addegg := addegg + [Unary(o, Egg)];
        o := Egg;
      }
      relations[i] := Triple(s, r, o);
      assert input[..i + 1][..i] == input[..i];
      assert relations[i + 1..] == input[i + 1..] by {
        assert forall k :: i + 1 <= k < relations.Length ==> relations[k] == input[k] by {
          forall k | i + 1 <= k < relations.Length ensures relations[k] == input[k] {
            assert old(relations[..])[k] == input[k];
          }
        }
      }
    }
    assert input[..relations.Length] == input;
    result := AsBinary(relations[..]) + addegg;
  }

  /** The variant of `check_group` that takes the groups dictionary: the
      `'egg'` entry is looked up, and is missing only if the loop body runs. */
  function GroupsOutcome(ts: seq<Triple>, groups: map<Name, seq<Name>>): Outcome<seq<Relation>>
  {
    if ts == [] then Ok([])
    else if Egg !in groups then Raised(KeyError)
    else Ok(Normalize(ts, groups[Egg]))
  }

  method ApplyGroups(relations: array<Triple>, groups: map<Name, seq<Name>>)
    returns (result: Outcome<seq<Relation>>)
    modifies relations
    ensures result == GroupsOutcome(old(relations[..]), groups)
    ensures result.Raised? ==> relations[..] == old(relations[..])
    ensures Egg in groups ==> relations[..] == Rewritten(old(relations[..]), groups[Egg])
    ensures relations.Length == 0 ==> relations[..] == []
  {
    if relations.Length == 0 {
      assert relations[..] == [];
      return Ok([]);
    }
    if Egg !in groups {
      return Raised(KeyError);
    }
    var r := ApplyGroup(relations, groups[Egg]);
    result := Ok(r);
  }
}
