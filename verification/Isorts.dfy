/** The insertion sort of adns (adns/general.c:408-429), and the order it puts addresses in
    (adns/types.c:307-338). */
module Isorts {

  // ---------- Sorting ----------

  /** `x` put behind the last element of `s` that it may not be swapped with. */
  function Insert<T>(s: seq<T>, x: T, needswap: (T, T) -> bool): (r: seq<T>)
    ensures |r| == |s| + 1
  {
    if s == [] || !needswap(s[|s| - 1], x) then s + [x]
    else Insert(s[..|s| - 1], x, needswap) + [s[|s| - 1]]
  }

  function Inserted<T>(s: seq<T>, needswap: (T, T) -> bool): (r: seq<T>)
    ensures |r| == |s|
  {
    if s == [] then [] else Insert(Inserted(s[..|s| - 1], needswap), s[|s| - 1], needswap)
  }

  lemma {:induction false} InsertAt<T>(s: seq<T>, x: T, needswap: (T, T) -> bool, place: nat)
    requires place <= |s| && (forall k :: place <= k < |s| ==> needswap(s[k], x))
    requires place > 0 ==> !needswap(s[place - 1], x)
    ensures Insert(s, x, needswap) == s[..place] + [x] + s[place..]
  {
    if place == |s| {
      assert s[..place] == s && s[place..] == [];
    } else {
      var t := s[..|s| - 1];
      InsertAt(t, x, needswap, place);
      assert t[..place] == s[..place] && s[place..] == t[place..] + [s[|s| - 1]];
    }
  }

  lemma Opened<T>(t: seq<T>, s: seq<T>, x: T, place: nat)
    requires |t| == |s| + 1 && place <= |s|
    requires forall k {:trigger t[k]} :: 0 <= k < |t| ==>
               t[k] == if k < place then s[k] else if k == place then x else s[k - 1]
    ensures t == s[..place] + [x] + s[place..]
  {
  }

  lemma InsertedStep<T>(s: seq<T>, i: nat, needswap: (T, T) -> bool)
    requires i < |s|
    ensures Inserted(s[..i + 1], needswap) == Insert(Inserted(s[..i], needswap), s[i], needswap)
  {
    assert s[..i + 1][..i] == s[..i];
  }

  // One element: the inner loop and the three copies (adns/general.c:418-427).
  method Place<T>(a: array<T>, i: nat, needswap: (T, T) -> bool)
    requires i < a.Length
    modifies a
    ensures a[..i + 1] == Insert(old(a[..i]), old(a[i]), needswap)
    ensures forall k :: i < k < a.Length ==> a[k] == old(a[k])
  {
    hide Insert;
    ghost var s, x := a[..i], a[i];
    var place := i;
    while place > 0 && needswap(a[place - 1], a[i])
      invariant 0 <= place <= i
      invariant forall k :: place <= k < i ==> needswap(s[k], x)
    {
      place := place - 1;
    }
    InsertAt(s, x, needswap, place);
    if place != i {
      var tempbuf := a[i];
      forall k | place < k <= i {  // memmove
        a[k] := a[k - 1];
      }
      a[place] := tempbuf;
    }
    Opened(a[..i + 1], s, x, place);
  }

  method Isort<T>(a: array<T>, needswap: (T, T) -> bool)
    modifies a
    ensures a[..] == Inserted(old(a[..]), needswap)
  {
    ghost var s := a[..];
    assert s[..0] == [] == Inserted([], needswap);
    hide Insert;
    hide Inserted;
    var i := 0;
    while i < a.Length
      invariant 0 <= i <= a.Length && a[..i] == Inserted(s[..i], needswap)
      invariant forall k :: i <= k < a.Length ==> a[k] == s[k]
    {
      InsertedStep(s, i, needswap);
      Place(a, i, needswap);
      i := i + 1;
    }
    assert a[..] == a[..i] && s == s[..i];
  }

  // ---------- Whatever the comparison, nothing is lost ----------

  lemma {:induction false} InsertKeeps<T>(s: seq<T>, x: T, needswap: (T, T) -> bool)
    ensures multiset(Insert(s, x, needswap)) == multiset(s) + multiset{x}
  {
    if s != [] && needswap(s[|s| - 1], x) {
      InsertKeeps(s[..|s| - 1], x, needswap);
      assert s == s[..|s| - 1] + [s[|s| - 1]];
    }
  }

  lemma {:induction false} SortPermutes<T>(s: seq<T>, needswap: (T, T) -> bool)
    ensures multiset(Inserted(s, needswap)) == multiset(s)
  {
    if s != [] {
      SortPermutes(s[..|s| - 1], needswap);
      InsertKeeps(Inserted(s[..|s| - 1], needswap), s[|s| - 1], needswap);
      assert s == s[..|s| - 1] + [s[|s| - 1]];
    }
  }

  // ---------- Sorting by a rank ----------

  /** Swap what has the smaller rank in front. */
  function ByRank<T>(rank: T -> int): (T, T) -> bool { (a, b) => rank(b) < rank(a) }

  predicate Ascending<T>(s: seq<T>, rank: T -> int) { forall i, j :: 0 <= i < j < |s| ==> rank(s[i]) <= rank(s[j]) }

  /** The elements of rank `n`, in their order. */
  function OfRank<T>(s: seq<T>, rank: T -> int, n: int): seq<T>
  {
    if s == [] then [] else OfRank(s[..|s| - 1], rank, n) + if rank(s[|s| - 1]) == n then [s[|s| - 1]] else []
  }

  predicate AtMost<T>(s: seq<T>, rank: T -> int, n: int) { forall i :: 0 <= i < |s| ==> rank(s[i]) <= n }

  lemma {:induction false} InsertAtMost<T>(s: seq<T>, x: T, needswap: (T, T) -> bool, rank: T -> int, n: int)
    requires AtMost(s, rank, n) && rank(x) <= n
    ensures AtMost(Insert(s, x, needswap), rank, n)
  {
    if s != [] && needswap(s[|s| - 1], x) {
      InsertAtMost(s[..|s| - 1], x, needswap, rank, n);
    }
  }

  lemma {:induction false} InsertAscends<T>(s: seq<T>, x: T, rank: T -> int)
    requires Ascending(s, rank)
    ensures Ascending(Insert(s, x, ByRank(rank)), rank)
  {
    if s != [] && ByRank(rank)(s[|s| - 1], x) {
      InsertAscends(s[..|s| - 1], x, rank);
      InsertAtMost(s[..|s| - 1], x, ByRank(rank), rank, rank(s[|s| - 1]));
    }
  }

  lemma OfRankSnoc<T>(s: seq<T>, x: T, rank: T -> int, n: int)
    ensures OfRank(s + [x], rank, n) == OfRank(s, rank, n) + if rank(x) == n then [x] else []
  {
    assert (s + [x])[..|s|] == s;
  }

  /** The new element comes behind all others of its rank, and these keep their order. */
  lemma {:induction false} InsertOfRank<T>(s: seq<T>, x: T, rank: T -> int, n: int)
    ensures OfRank(Insert(s, x, ByRank(rank)), rank, n) == OfRank(s, rank, n) + if rank(x) == n then [x] else []
  {
    if s == [] || !ByRank(rank)(s[|s| - 1], x) {
      OfRankSnoc(s, x, rank, n);
    } else {
      var t, y := s[..|s| - 1], s[|s| - 1];
      InsertOfRank(t, x, rank, n);
      OfRankSnoc(Insert(t, x, ByRank(rank)), y, rank, n);
    }
  }

  /** Sorting by a rank is stable: it puts the elements in ascending order, and those of the same rank
      stay in the order they had. */
  lemma {:induction false} SortByRank<T>(s: seq<T>, rank: T -> int)
    ensures var r := Inserted(s, ByRank(rank));
            Ascending(r, rank) && forall n :: OfRank(r, rank, n) == OfRank(s, rank, n)
  {
    if s != [] {
      SortByRank(s[..|s| - 1], rank);
      var t := Inserted(s[..|s| - 1], ByRank(rank));
      InsertAscends(t, s[|s| - 1], rank);
      forall n ensures OfRank(Inserted(s, ByRank(rank)), rank, n) == OfRank(s, rank, n) {
        InsertOfRank(t, s[|s| - 1], rank, n);
      }
    }
  }

  /** There is only one such order. */
  lemma {:induction false} OneStableOrder<T>(a: seq<T>, b: seq<T>, rank: T -> int)
    requires Ascending(a, rank) && Ascending(b, rank) && forall n :: OfRank(a, rank, n) == OfRank(b, rank, n)
    ensures a == b
    decreases |a|
  {
    if a == [] || b == [] {
      OnlyEmpty(a, b, rank);
    } else {
      var x, y := a[|a| - 1], b[|b| - 1];
      LastRanks(a, b, rank);
      LastRanks(b, a, rank);
      var a', b', r := a[..|a| - 1], b[..|b| - 1], rank(x);
      assert a == a' + [x] && b == b' + [y];
      assert OfRank(a, rank, r) == OfRank(b, rank, r) && rank(y) == r;
      SameLast(OfRank(a', rank, r), x, OfRank(b', rank, r), y);
      forall n ensures OfRank(a', rank, n) == OfRank(b', rank, n) {
        if n != r {
          assert OfRank(a, rank, n) == OfRank(a', rank, n) && OfRank(b, rank, n) == OfRank(b', rank, n);
        }
      }
      OneStableOrder(a', b', rank);
    }
  }

  lemma SameLast<T>(a: seq<T>, x: T, b: seq<T>, y: T)
    requires a + [x] == b + [y]
    ensures a == b && x == y
  {
    assert (a + [x])[..|a|] == a && (b + [y])[..|b|] == b;
    assert (a + [x])[|a|] == x && (b + [y])[|b|] == y;
  }

  lemma LastIsOfRank<T>(s: seq<T>, rank: T -> int)
    ensures s != [] ==> OfRank(s, rank, rank(s[|s| - 1])) != []
    ensures s == [] ==> forall n :: OfRank(s, rank, n) == []
  {
  }

  lemma OnlyEmpty<T>(a: seq<T>, b: seq<T>, rank: T -> int)
    requires (a == [] || b == []) && forall n :: OfRank(a, rank, n) == OfRank(b, rank, n)
    ensures a == b == []
  {
    LastIsOfRank(a, rank);
    LastIsOfRank(b, rank);
  }

  lemma {:induction false} OfRankHas<T>(s: seq<T>, rank: T -> int, n: int)
    requires OfRank(s, rank, n) != []
    ensures exists i :: 0 <= i < |s| && rank(s[i]) == n
  {
    if rank(s[|s| - 1]) != n {
      OfRankHas(s[..|s| - 1], rank, n);
      var i :| 0 <= i < |s| - 1 && rank(s[..|s| - 1][i]) == n;
      assert s[i] == s[..|s| - 1][i];
    }
  }

  /** The last rank of one is no greater than that of the other. */
  lemma LastRanks<T>(a: seq<T>, b: seq<T>, rank: T -> int)
    requires a != [] && b != [] && Ascending(b, rank) && forall n :: OfRank(a, rank, n) == OfRank(b, rank, n)
    ensures rank(a[|a| - 1]) <= rank(b[|b| - 1])
  {
    var n := rank(a[|a| - 1]);
    assert OfRank(a, rank, n) != [];
    OfRankHas(b, rank, n);
  }

  // ---------- The sortlist ----------

  type Address = bv32

  datatype Entry = Entry(base: Address, mask: Address)

  predicate InEntry(e: Entry, ad: Address) { ad & e.mask == e.base }

  /** Position of the first entry that an address belongs to; the length of the list if there is none. */
  function Rank(sortlist: seq<Entry>, ad: Address): (r: nat)
    ensures r <= |sortlist| && (r < |sortlist| ==> InEntry(sortlist[r], ad))
    ensures forall i :: 0 <= i < r ==> !InEntry(sortlist[i], ad)
  {
    if sortlist == [] || InEntry(sortlist[0], ad) then 0 else 1 + Rank(sortlist[1..], ad)
  }

  method SearchSortlist(sortlist: seq<Entry>, ad: Address) returns (i: nat)
    ensures i == Rank(sortlist, ad)
  {
    hide InEntry;
    i := 0;
    while i < |sortlist| && !InEntry(sortlist[i], ad)
      invariant 0 <= i <= |sortlist| && Rank(sortlist, ad) == i + Rank(sortlist[i..], ad)
    {
      i := i + 1;
    }
  }

  // dip_inaddr: whether `b` belongs in front of `a`.
  method NeedswapAddresses(sortlist: seq<Entry>, a: Address, b: Address) returns (swap: bool)
    ensures swap == ByRank((ad: Address) => Rank(sortlist, ad) as int)(a, b)
  {
    if |sortlist| == 0 {
      return false;
    }
    var ai := SearchSortlist(sortlist, a);
    var bi := SearchSortlist(sortlist, b);
    swap := bi < ai;
  }

  /** The addresses of an answer (adns/query.c:707-718): those of earlier entries of the sortlist first, and
      otherwise as they came. */
  method SortAddresses(sortlist: seq<Entry>, a: array<Address>)
    modifies a
    ensures multiset(a[..]) == multiset(old(a[..]))
    ensures var rank := (ad: Address) => Rank(sortlist, ad) as int;
            Ascending(a[..], rank) && forall n :: OfRank(a[..], rank, n) == OfRank(old(a[..]), rank, n)
  {
    var rank := (ad: Address) => Rank(sortlist, ad) as int;
    Isort(a, ByRank(rank));
    SortPermutes(old(a[..]), ByRank(rank));
    SortByRank(old(a[..]), rank);
  }
}
