/** What a loop keeps of a list: something for each element that passes a test, in order. */
module Filter {

  /** How many elements pass. */
  function Passing<T>(xs: seq<T>, keep: T -> bool): nat {
    if xs == [] then 0 else Passing(xs[..|xs| - 1], keep) + if keep(xs[|xs| - 1]) then 1 else 0
  }

  /** The elements of ys stand, one for one and in order, for the elements of xs that pass:
      that of xs[i] comes after as many others as pass before i. */
  ghost predicate Keeps<T, U>(xs: seq<T>, keep: T -> bool, made: (T, U) -> bool, ys: seq<U>) {
    && |ys| == Passing(xs, keep)
    && forall i {:trigger xs[i]} :: 0 <= i < |xs| && keep(xs[i]) ==>
         Passing(xs[..i], keep) < |ys| && made(xs[i], ys[Passing(xs[..i], keep)])
  }

  lemma KeepsPush<T, U>(xs: seq<T>, keep: T -> bool, made: (T, U) -> bool, ys: seq<U>, x: T, y: U)
    requires Keeps(xs, keep, made, ys) && (keep(x) ==> made(x, y))
    ensures Keeps(xs + [x], keep, made, if keep(x) then ys + [y] else ys)
  {
    var all := xs + [x];
    assert all[..|xs|] == xs;
    forall i | 0 <= i < |all| && keep(all[i])
      ensures var n := Passing(all[..i], keep);
              n < Passing(all, keep) && made(all[i], (ys + [y])[n]) && (i < |xs| ==> n < |ys|)
    {
      if i < |xs| {
        assert all[..i] == xs[..i] && all[i] == xs[i];
      }
    }
  }

  /** The places of the elements that pass. */
  ghost function Places<T>(xs: seq<T>, keep: T -> bool): set<int> {
    set i | 0 <= i < |xs| && keep(xs[i])
  }

  lemma {:induction false} PassingIsPlaces<T>(xs: seq<T>, keep: T -> bool)
    ensures Passing(xs, keep) == |Places(xs, keep)|
  {
    if xs == [] {
      assert Places(xs, keep) == {};
    } else {
      var front, last := xs[..|xs| - 1], |xs| - 1;
      PassingIsPlaces(front, keep);
      assert Places(xs, keep) == Places(front, keep) + if keep(xs[last]) then {last} else {};
    }
  }

  /** Every element of ys stands for one of xs. */
  lemma {:induction false} KeepsOnto<T, U>(xs: seq<T>, keep: T -> bool, made: (T, U) -> bool, ys: seq<U>, p: nat)
      returns (i: nat)
    requires Keeps(xs, keep, made, ys) && p < |ys|
    ensures i < |xs| && keep(xs[i]) && Passing(xs[..i], keep) == p && made(xs[i], ys[p])
  {
    i := PlaceOf(xs, keep, p);
  }

  lemma {:induction false} PlaceOf<T>(xs: seq<T>, keep: T -> bool, p: nat) returns (i: nat)
    requires p < Passing(xs, keep)
    ensures i < |xs| && keep(xs[i]) && Passing(xs[..i], keep) == p
  {
    var front := xs[..|xs| - 1];
    if p < Passing(front, keep) {
      i := PlaceOf(front, keep, p);
      assert front[..i] == xs[..i];
    } else {
      i := |xs| - 1;
    }
  }

  /** Later elements that pass come later. */
  lemma {:induction false} PassingGrows<T>(xs: seq<T>, keep: T -> bool, i: nat, j: nat)
    requires i <= j <= |xs|
    ensures Passing(xs[..i], keep) <= Passing(xs[..j], keep)
    ensures i < j && keep(xs[i]) ==> Passing(xs[..i], keep) < Passing(xs[..j], keep)
  {
    if i < j {
      PassingGrows(xs, keep, i, j - 1);
      assert xs[..j][..j - 1] == xs[..j - 1];
    }
  }
}
