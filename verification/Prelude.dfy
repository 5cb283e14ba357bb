/** Types and sequence facts shared by the modules of the model. */
module Prelude {

  datatype Option<+T> = None | Some(value: T)

  /** The result of a call that may throw instead of returning. */
  datatype Exceptional<+T> = Returned(value: T) | Thrown

  /** The elements of all the sequences of `ss`, in order. */
  function Flatten<T>(ss: seq<seq<T>>): seq<T> {
    if ss == [] then [] else ss[0] + Flatten(ss[1..])
  }

  lemma AppendAssociative<T>(a: seq<T>, b: seq<T>, c: seq<T>)
    ensures a + b + c == a + (b + c)
  {
  }

  lemma {:induction false} FlattenAppend<T>(a: seq<seq<T>>, b: seq<seq<T>>)
    ensures Flatten(a + b) == Flatten(a) + Flatten(b)
  {
    if a == [] {
      assert a + b == b;
    } else {
      FlattenAppend(a[1..], b);
      assert (a + b)[0] == a[0] && (a + b)[1..] == a[1..] + b;
      AppendAssociative(a[0], Flatten(a[1..]), Flatten(b));
    }
  }

  lemma FlattenOne<T>(s: seq<T>)
    ensures Flatten([s]) == s
  {
    assert [s][1..] == [];
    assert Flatten([s]) == s + Flatten<T>([]);
  }

  /** The elements of `s` that satisfy `keep`, in order. */
  function Filter<T>(s: seq<T>, keep: T -> bool): (r: seq<T>) {
    if s == [] then [] else (if keep(s[0]) then [s[0]] else []) + Filter(s[1..], keep)
  }

  lemma {:induction false} FilterAppend<T>(a: seq<T>, b: seq<T>, keep: T -> bool)
    ensures Filter(a + b, keep) == Filter(a, keep) + Filter(b, keep)
  {
    if a == [] {
      assert a + b == b;
    } else {
      FilterAppend(a[1..], b, keep);
      assert (a + b)[1..] == a[1..] + b && (a + b)[0] == a[0];
      var head := if keep(a[0]) then [a[0]] else [];
      AppendAssociative(head, Filter(a[1..], keep), Filter(b, keep));
    }
  }

  lemma {:induction false} FilterAll<T>(s: seq<T>, keep: T -> bool)
    requires forall i :: 0 <= i < |s| ==> keep(s[i])
    ensures Filter(s, keep) == s
  {
    if s != [] {
      FilterAll(s[1..], keep);
    }
  }

  lemma {:induction false} FilterNone<T>(s: seq<T>, keep: T -> bool)
    requires forall i :: 0 <= i < |s| ==> !keep(s[i])
    ensures Filter(s, keep) == []
  {
    if s != [] {
      FilterNone(s[1..], keep);
    }
  }

  lemma {:induction false} FilterLength<T>(s: seq<T>, keep: T -> bool)
    ensures |Filter(s, keep)| <= |s|
  {
    if s != [] {
      FilterLength(s[1..], keep);
    }
  }

  /** `r` is the end of `s`. */
  ghost predicate IsSuffix<T>(r: seq<T>, s: seq<T>) {
    |r| <= |s| && r == s[|s| - |r|..]
  }

  lemma SuffixOfSuffix<T>(r: seq<T>, q: seq<T>, s: seq<T>)
    requires IsSuffix(r, q) && IsSuffix(q, s)
    ensures IsSuffix(r, s)
  {
  }

  lemma SuffixTail<T>(s: seq<T>)
    requires s != []
    ensures IsSuffix(s, s) && IsSuffix(s[1..], s)
  {
  }

  lemma SuffixAppend<T>(q: seq<T>, s: seq<T>, x: T)
    requires IsSuffix(q, s)
    ensures IsSuffix(q + [x], s + [x])
  {
  }

  lemma SuffixElement<T>(q: seq<T>, s: seq<T>)
    requires IsSuffix(q, s)
    ensures |q| <= |s|
    ensures forall i :: |s| - |q| <= i < |s| ==> s[i] == q[i - (|s| - |q|)]
    ensures forall i :: 0 <= i < |q| ==> q[i] == s[|s| - |q| + i]
  {
  }

  /** Only the suffix is left of a sequence whose other elements are filtered out. */
  lemma FilterSuffix<T>(q: seq<T>, s: seq<T>, keep: T -> bool)
    requires IsSuffix(q, s)
    requires forall i :: 0 <= i < |s| - |q| ==> !keep(s[i])
    ensures Filter(s, keep) == Filter(q, keep)
  {
    var dropped := s[..|s| - |q|];
    assert dropped + q == s;
    FilterAppend(dropped, q, keep);
    FilterNone(dropped, keep);
  }
}
