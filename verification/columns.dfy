/** Column-name normalisation applied right after loading: every space becomes an underscore. */
module Columns {

  /** `name.replace(" ", "_")`. */
  function Normalize(name: string): (r: string)
    ensures |r| == |name|
    ensures ' ' !in r
    ensures forall i :: 0 <= i < |name| && name[i] != ' ' ==> r[i] == name[i]
    ensures forall i :: 0 <= i < |name| && name[i] == ' ' ==> r[i] == '_'
  {
    if name == [] then []
    else [if name[0] == ' ' then '_' else name[0]] + Normalize(name[1..])
  }

  /** A name is left unchanged exactly when it contains no space. */
  lemma {:induction false} NormalizeFixesExactlySpaceFree(name: string)
    ensures Normalize(name) == name <==> ' ' !in name
  {
    var r := Normalize(name);
    if ' ' !in name {
      assert forall i :: 0 <= i < |name| ==> r[i] == name[i];
    }
  }

  /** Normalising twice is normalising once. */
  lemma NormalizeIdempotent(name: string)
    ensures Normalize(Normalize(name)) == Normalize(name)
  {
    NormalizeFixesExactlySpaceFree(Normalize(name));
  }

  /** Renaming every column of the frame: each name is normalised in place. */
  function RenameColumns(columns: seq<string>): (r: seq<string>)
    ensures |r| == |columns|
    ensures forall i :: 0 <= i < |r| ==> r[i] == Normalize(columns[i])
    ensures forall i :: 0 <= i < |r| ==> |r[i]| == |columns[i]| && ' ' !in r[i]
    ensures forall i :: 0 <= i < |r| && ' ' !in columns[i] ==> r[i] == columns[i]
  {
    seq(|columns|, i requires 0 <= i < |columns| =>
      NormalizeFixesExactlySpaceFree(columns[i]);
      Normalize(columns[i]))
  }
}
