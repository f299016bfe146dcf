/** Looking a row up in a table. */
module Tables {
  import opened Common

  function Find<T>(rows: seq<T>, p: T -> bool): (r: Option<nat>)
    ensures r.Some? ==> r.value < |rows| && p(rows[r.value])
    ensures r.None? ==> forall i :: 0 <= i < |rows| ==> !p(rows[i])
  {
    if |rows| == 0 then None
    else if p(rows[|rows| - 1]) then Some(|rows| - 1)
    else Find(rows[..|rows| - 1], p)
  }
}
