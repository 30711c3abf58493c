/** Generic facts about lists: Python's `list.remove`, lists without
    repetitions, and the sub-list of the elements that a list of flags keeps. */
module Lists {

  /** Python's `list.remove`: the list without the first element equal to
      `x`. Python raises `ValueError` when there is none; here the list is
      returned as it is, a case the per-tick update never reaches. */
  function RemoveFirst<T(==)>(s: seq<T>, x: T): seq<T>
  {
    if s == [] then []
    else if s[0] == x then s[1..]
    else [s[0]] + RemoveFirst(s[1..], x)
  }

  /** The removal takes out one occurrence of `x` when there is one; with
      none (where Python raises `ValueError`) the list is left alone. */
  lemma {:induction false} RemoveFirstRemovesOne<T>(s: seq<T>, x: T)
    ensures x in s ==> |RemoveFirst(s, x)| == |s| - 1 && multiset(RemoveFirst(s, x)) == multiset(s) - multiset{x}
    ensures x !in s ==> RemoveFirst(s, x) == s
  {
    if s != [] {
      assert s == [s[0]] + s[1..];
      RemoveFirstRemovesOne(s[1..], x);
      if s[0] != x {
        assert x in s ==> x in s[1..];
      }
    }
  }

  /** Removing an element that does not occur before position |a| removes
      exactly the element at that position. */
  lemma {:induction false} RemoveFirstAfter<T>(a: seq<T>, x: T, b: seq<T>)
    requires x !in a
    ensures RemoveFirst(a + [x] + b, x) == a + b
  {
    if a == [] {
      assert a + [x] + b == [x] + b;
    } else {
      var s := a + [x] + b;
      assert s[0] == a[0] && s[0] != x;
      assert s[1..] == a[1..] + [x] + b;
      RemoveFirstAfter(a[1..], x, b);
      assert RemoveFirst(s, x) == [a[0]] + RemoveFirst(s[1..], x);
      assert a == [a[0]] + a[1..];
    }
  }

  /** Removing, from the live queue `a + s[i..]`, the element `s[i]` that does
      not occur in `a` leaves `a + s[i + 1..]`. */
  lemma RemoveAt<T>(a: seq<T>, s: seq<T>, i: nat)
    requires i < |s| && s[i] !in a
    ensures a + s[i..] == a + [s[i]] + s[i + 1..]
    ensures RemoveFirst(a + s[i..], s[i]) == a + s[i + 1..]
  {
    assert s[i..] == [s[i]] + s[i + 1..];
    RemoveFirstAfter(a, s[i], s[i + 1..]);
  }

  /** No element occurs twice. */
  predicate Distinct<T(==)>(s: seq<T>) {
    forall x :: x in s ==> multiset(s)[x] == 1
  }

  /** The element at `i` of a list without repetitions occurs neither before
      nor after position `i`. */
  lemma DistinctSplit<T>(s: seq<T>, i: nat)
    requires Distinct(s) && i < |s|
    ensures s[i] !in s[..i] && s[i] !in s[i + 1..]
    ensures forall j :: 0 <= j < |s| && j != i ==> s[j] != s[i]
  {
    assert s == s[..i] + [s[i]] + s[i + 1..];
    assert multiset(s)[s[i]] == multiset(s[..i])[s[i]] + 1 + multiset(s[i + 1..])[s[i]];
    forall j | 0 <= j < |s| && j != i ensures s[j] != s[i] {
      if j < i {
        assert s[j] == s[..i][j];
      } else {
        assert s[j] == s[i + 1..][j - i - 1];
      }
    }
  }

  /** Part of a list without repetitions, in the multiset sense, has none
      either, and holds only elements of the list. */
  lemma DistinctWithin<T>(a: seq<T>, b: seq<T>)
    requires Distinct(b) && multiset(a) <= multiset(b)
    ensures Distinct(a)
    ensures forall x :: x in a ==> x in b
  {
    forall x | x in a ensures multiset(a)[x] == 1 && x in b {
      assert x in multiset(a);
      assert x in multiset(b);
    }
  }

  /** Appending an element that does not occur keeps a list without repetitions. */
  lemma DistinctSnoc<T>(s: seq<T>, x: T)
    requires Distinct(s) && x !in s
    ensures Distinct(s + [x])
  {
    forall y | y in s + [x] ensures multiset(s + [x])[y] == 1 {
      assert multiset(s + [x]) == multiset(s) + multiset{x};
      if y != x {
        assert y in s;
      }
    }
  }

  /** Every element of a multiset-part of `b` is an element of `b`. */
  lemma Within<T>(a: seq<T>, b: seq<T>)
    requires multiset(a) <= multiset(b)
    ensures forall x :: x in a ==> x in b
  {
    forall x | x in a ensures x in b {
      assert x in multiset(a);
    }
  }

  /** The elements of `s` whose flag in `gone` is false, in order. */
  function Keep<T>(s: seq<T>, gone: seq<bool>): seq<T>
    requires |s| == |gone|
  {
    if s == [] then [] else (if gone[0] then [] else [s[0]]) + Keep(s[1..], gone[1..])
  }

  lemma {:induction false} KeepPart<T>(s: seq<T>, gone: seq<bool>)
    requires |s| == |gone|
    ensures multiset(Keep(s, gone)) <= multiset(s)
  {
    if s != [] {
      KeepPart(s[1..], gone[1..]);
      assert s == [s[0]] + s[1..];
    }
  }

  lemma {:induction false} KeepAppend<T>(a: seq<T>, ga: seq<bool>, b: seq<T>, gb: seq<bool>)
    requires |a| == |ga| && |b| == |gb|
    ensures Keep(a + b, ga + gb) == Keep(a, ga) + Keep(b, gb)
  {
    if a == [] {
      assert a + b == b && ga + gb == gb;
    } else {
      assert (a + b)[1..] == a[1..] + b && (ga + gb)[1..] == ga[1..] + gb;
      KeepAppend(a[1..], ga[1..], b, gb);
    }
  }

  /** Deciding on one more element extends what is kept by that element,
      unless it is flagged. */
  lemma KeepSnoc<T>(s: seq<T>, gone: seq<bool>, i: nat)
    requires i < |s| == |gone|
    ensures Keep(s[..i + 1], gone[..i + 1]) == Keep(s[..i], gone[..i]) + (if gone[i] then [] else [s[i]])
  {
    assert s[..i + 1] == s[..i] + [s[i]] && gone[..i + 1] == gone[..i] + [gone[i]];
    KeepAppend(s[..i], gone[..i], [s[i]], [gone[i]]);
  }

  /** One step of filtering a list without repetitions in place: the list
      `live` holds what is kept of the elements already decided on followed by
      those still to come; removing the next element when it is flagged (and
      keeping it otherwise) moves the boundary one place on. */
  lemma KeepStep<T>(s: seq<T>, gone: seq<bool>, live: seq<T>, i: nat)
    requires Distinct(s) && i < |s| == |gone|
    requires live == Keep(s[..i], gone[..i]) + s[i..]
    ensures (if gone[i] then RemoveFirst(live, s[i]) else live) == Keep(s[..i + 1], gone[..i + 1]) + s[i + 1..]
  {
    var kept := Keep(s[..i], gone[..i]);
    KeepSnoc(s, gone, i);
    if gone[i] {
      DistinctSplit(s, i);
      KeepPart(s[..i], gone[..i]);
      Within(kept, s[..i]);
      RemoveAt(kept, s, i);
      assert kept + [] == kept;
    } else {
      assert s[i..] == [s[i]] + s[i + 1..];
      assert live == kept + [s[i]] + s[i + 1..];
    }
  }

  /** Overwriting position `i` of `a[..i] + b[i..]` with `a[i]` moves the
      boundary one place on. */
  lemma Splice<T>(a: seq<T>, b: seq<T>, i: nat)
    requires i < |a| == |b|
    ensures (a[..i] + b[i..])[i := a[i]] == a[..i + 1] + b[i + 1..]
  {
  }

  /** `k` copies of `x`. */
  function Copies<T>(x: T, k: nat): (s: seq<T>)
    ensures |s| == k && forall i :: 0 <= i < k ==> s[i] == x
  {
    if k == 0 then [] else Copies(x, k - 1) + [x]
  }
}
