/** Values shared by every part of the goal-recognition pipeline: object names,
    relations as the scripts hold them (2- and 3-element tuples), and the
    Python exceptions the scripts let escape. */
module Common {

  type Name = string

  /** The canonical label of the only group the scripts consult. */
  const Egg: Name := "egg"

  /** A relation tuple: `(s, o)` (a unary type fact) or `(s, r, o)`. */
  datatype Relation = Unary(s: Name, o: Name) | Binary(s: Name, r: Name, o: Name)

  /** A relation as the scripts read it from a frame: always three names. */
  datatype Triple = Triple(s: Name, r: Name, o: Name)

  /** The positional view Python indexes with `rel[0]`, `rel[1]`, `rel[2]`. */
  function Items(rel: Relation): (items: seq<Name>)
    ensures |items| == if rel.Unary? then 2 else 3
    ensures items[0] == rel.s
  {
    match rel
    case Unary(s, o) => [s, o]
    case Binary(s, r, o) => [s, r, o]
  }

  function Rows(rels: seq<Relation>): (rows: seq<seq<Name>>)
    ensures |rows| == |rels|
    ensures forall i :: 0 <= i < |rels| ==> rows[i] == Items(rels[i])
  {
    seq(|rels|, i requires 0 <= i < |rels| => Items(rels[i]))
  }

  function AsBinary(ts: seq<Triple>): (rels: seq<Relation>)
    ensures |rels| == |ts|
    ensures forall i :: 0 <= i < |ts| ==> rels[i] == Binary(ts[i].s, ts[i].r, ts[i].o)
  {
    seq(|ts|, i requires 0 <= i < |ts| => Binary(ts[i].s, ts[i].r, ts[i].o))
  }

  /** The exceptions the modelled code raises and does not catch. */
  datatype Error = KeyError | IndexError | NameError | ValueError

  datatype Outcome<T> = Ok(value: T) | Raised(error: Error)

  datatype Option<T> = None | Some(value: T)

  predicate NoDup<T(==)>(xs: seq<T>)
  {
    forall i, j :: 0 <= i < j < |xs| ==> xs[i] != xs[j]
  }
}
