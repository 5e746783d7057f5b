/** Byte strings in pieces, and their leading bytes. */
module Texts {
  import opened Net

  /** The pieces put together. */
  function Flat(pieces: seq<Bytes>): Bytes { if pieces == [] then [] else pieces[0] + Flat(pieces[1..]) }

  lemma {:induction false} FlatSnoc(pieces: seq<Bytes>, last: Bytes)
    ensures Flat(pieces + [last]) == Flat(pieces) + last
  {
    var all := pieces + [last];
    if pieces == [] {
      assert all[1..] == [];
      assert Flat(all) == last + [] == [] + last;
    } else {
      FlatSnoc(pieces[1..], last);
      assert all[1..] == pieces[1..] + [last];
      assert pieces[0] + (Flat(pieces[1..]) + last) == pieces[0] + Flat(pieces[1..]) + last;
    }
  }

  /** The number of bytes at the start that satisfy `p`. */
  function Leading(b: Bytes, p: Byte -> bool): (n: nat)
    ensures n <= |b| && (forall i :: 0 <= i < n ==> p(b[i])) && (n < |b| ==> !p(b[n]))
  {
    if b == [] || !p(b[0]) then 0 else 1 + Leading(b[1..], p)
  }
}
