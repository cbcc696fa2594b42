/** Shared vocabulary of the analysis model: failure-carrying results, the
    Python list operations the analysis code relies on (`list.remove`,
    membership filters, boolean-mask selection) and a mutable list object
    for lists that a caller shares with the function that changes them. */
module Support {

  datatype Option<+T> = None | Some(value: T)

  datatype Result<+T, +E> = Ok(value: T) | Err(error: E)

  /** No element occurs twice. */
  predicate NoDuplicates<T(==)>(s: seq<T>) {
    forall i, j :: 0 <= i < j < |s| ==> s[i] != s[j]
  }

  /** Two duplicate-free lists with no element in common join into a
      duplicate-free list. */
  lemma NoDuplicatesConcat<T>(a: seq<T>, b: seq<T>)
    requires NoDuplicates(a) && NoDuplicates(b)
    requires forall x :: x in a ==> x !in b
    ensures NoDuplicates(a + b)
  {
    forall i, j | 0 <= i < j < |a + b|
      ensures (a + b)[i] != (a + b)[j]
    {
      if i < |a| && j >= |a| {
        assert (a + b)[i] in a && (a + b)[j] == b[j - |a|];
      }
    }
  }

  /** The number of pairs `zip(a, b)` forms: the length of the shorter list. */
  function Paired<A, B>(a: seq<A>, b: seq<B>): (n: nat)
    ensures n <= |a| && n <= |b| && (n == |a| || n == |b|)
  {
    if |a| < |b| then |a| else |b|
  }

  /** Python's `list.remove(x)`: drop the first occurrence of `x`. */
  function RemoveFirst<T(==)>(s: seq<T>, x: T): (r: seq<T>)
    requires x in s
    ensures |r| == |s| - 1
  {
    if s[0] == x then s[1..]
    else [s[0]] + RemoveFirst(s[1..], x)
  }

  /** `list.remove(x)` drops exactly one occurrence of `x` and nothing else. */
  lemma {:induction false} RemoveFirstCounts<T>(s: seq<T>, x: T)
    requires x in s
    ensures multiset(RemoveFirst(s, x)) == multiset(s) - multiset{x}
  {
    assert s == [s[0]] + s[1..];
    if s[0] != x {
      RemoveFirstCounts(s[1..], x);
    }
  }

  /** When `x` does not occur in `p`, removing the first `x` from
      `p + [x] + q` removes exactly the displayed one. */
  lemma {:induction false} RemoveFirstAfter<T>(p: seq<T>, x: T, q: seq<T>)
    requires x !in p
    ensures RemoveFirst(p + [x] + q, x) == p + q
  {
    var s := p + [x] + q;
    if p == [] {
      assert s == [x] + q && s[0] == x && s[1..] == q;
    } else {
      assert s[0] == p[0] && p[0] != x;
      assert s[1..] == p[1..] + [x] + q;
      RemoveFirstAfter(p[1..], x, q);
      assert RemoveFirst(s, x) == [p[0]] + (p[1..] + q);
      assert p == [p[0]] + p[1..];
    }
  }

  /** The elements of `s` that belong to `keep`, in their order in `s`. */
  function Keep<T(==)>(s: seq<T>, keep: set<T>): (r: seq<T>)
    ensures |r| <= |s|
  {
    if s == [] then []
    else if s[|s| - 1] in keep then Keep(s[..|s| - 1], keep) + [s[|s| - 1]]
    else Keep(s[..|s| - 1], keep)
  }

  /** `Keep` keeps exactly the elements of `s` that are in `keep`. */
  lemma {:induction false} KeepMembers<T>(s: seq<T>, keep: set<T>, x: T)
    ensures x in Keep(s, keep) <==> x in s && x in keep
  {
    if s != [] {
      KeepMembers(s[..|s| - 1], keep, x);
      assert s == s[..|s| - 1] + [s[|s| - 1]];
    }
  }

  /** `Keep` never drops an occurrence of a kept element, nor keeps one of a
      dropped element. */
  lemma {:induction false} KeepCounts<T>(s: seq<T>, keep: set<T>, x: T)
    ensures multiset(Keep(s, keep))[x] == if x in keep then multiset(s)[x] else 0
  {
    if s != [] {
      KeepCounts(s[..|s| - 1], keep, x);
      assert s == s[..|s| - 1] + [s[|s| - 1]];
    }
  }

  /** One step of a loop that walks `s` and drops, from a list that reads
      `base + Keep(s[..k], keep) + s[k..]`, the first occurrence of `s[k]`
      when `s[k]` is not kept. */
  lemma KeepStep<T>(base: seq<T>, s: seq<T>, k: nat, keep: set<T>)
    requires k < |s|
    requires s[k] !in keep ==> s[k] !in base
    ensures s[k] in keep ==>
      base + Keep(s[..k + 1], keep) + s[k + 1..] == base + Keep(s[..k], keep) + s[k..]
    ensures s[k] !in keep ==>
      s[k] in base + Keep(s[..k], keep) + s[k..] &&
      RemoveFirst(base + Keep(s[..k], keep) + s[k..], s[k]) == base + Keep(s[..k + 1], keep) + s[k + 1..]
  {
    var kept := Keep(s[..k], keep);
    assert s[..k + 1][..k] == s[..k] && s[..k + 1][k] == s[k];
    assert s[k..] == [s[k]] + s[k + 1..];
    assert base + kept + s[k..] == (base + kept) + [s[k]] + s[k + 1..];
    if s[k] !in keep {
      KeepMembers(s[..k], keep, s[k]);
      RemoveFirstAfter(base + kept, s[k], s[k + 1..]);
    }
  }

  /** Filtering a duplicate-free list gives a duplicate-free list. */
  lemma {:induction false} KeepNoDuplicates<T>(s: seq<T>, keep: set<T>)
    requires NoDuplicates(s)
    ensures NoDuplicates(Keep(s, keep))
  {
    if s != [] {
      var init := s[..|s| - 1];
      KeepNoDuplicates(init, keep);
      KeepMembers(init, keep, s[|s| - 1]);
      assert s[|s| - 1] !in init;
    }
  }

  /** pandas' boolean indexing `column[mask]`: the entries whose mask is set,
      in row order. */
  function Select<T>(column: seq<T>, mask: seq<bool>): (r: seq<T>)
    requires |column| == |mask|
    ensures |r| <= |column|
    ensures forall i :: 0 <= i < |mask| && mask[i] ==> column[i] in r
  {
    if column == [] then []
    else
      var n := |column| - 1;
      var init := Select(column[..n], mask[..n]);
      assert forall i :: 0 <= i < n ==> column[..n][i] == column[i] && mask[..n][i] == mask[i];
      if mask[n] then init + [column[n]] else init
  }

  /** Every selected entry comes from a row whose mask is set. */
  lemma {:induction false} SelectOrigin<T>(column: seq<T>, mask: seq<bool>, x: T)
    requires |column| == |mask| && x in Select(column, mask)
    ensures exists i :: 0 <= i < |mask| && mask[i] && column[i] == x
  {
    var n := |column| - 1;
    if !mask[n] || x != column[n] {
      SelectOrigin(column[..n], mask[..n], x);
      var i :| 0 <= i < n && mask[..n][i] && column[..n][i] == x;
      assert mask[i] && column[i] == x;
    }
  }

  /** A Python list object that the caller shares with the code that
      changes it. */
  class NameList {
    var items: seq<string>

    constructor (items: seq<string>)
      ensures this.items == items
    {
      this.items := items;
    }

    /** `list.remove(x)`; `found` is false where Python raises ValueError,
        and the list is then left as it was. */
    method Remove(x: string) returns (found: bool)
      modifies this
      ensures found == (x in old(items))
      ensures items == if found then RemoveFirst(old(items), x) else old(items)
    {
      found := x in items;
      if found {
        items := RemoveFirst(items, x);
      }
    }
  }
}
