/** The intrusive lists that hold the queries (adns/dlist.h:37-60), pointer by pointer. A family of lists shares
    one link per query, as the four queues do, and the lists of children; a query is on one of them at most.
    LIST_LINK_TAIL appends, LIST_UNLINK removes, the other lists stay as they are, and the walk of DLIST_CHECK
    (adns/check.c:44-53) meets every query of its list once, in order. */
module Dlists {
  import opened Basics
  import opened LifeCycle

  /** The `next` and `back` of one query. */
  datatype Link = Link(next: Option<QId>, back: Option<QId>)

  /** The `head` and `tail` of a list. */
  datatype Ends = Ends(head: Option<QId>, tail: Option<QId>)

  function Nth(s: seq<QId>, i: int): Option<QId> { if 0 <= i < |s| then Some(s[i]) else None }

  /** The pointers form a list of exactly these queries, in this order. */
  ghost predicate Listed(links: map<QId, Link>, ends: Ends, s: seq<QId>)
  {
    NoDup(s) && ends == Ends(Nth(s, 0), Nth(s, |s| - 1)) &&
    forall i {:trigger s[i]} :: 0 <= i < |s| ==> s[i] in links && links[s[i]] == Link(Nth(s, i + 1), Nth(s, i - 1))
  }

  // ---------- The two macros on one list ----------

  function Linked(links: map<QId, Link>, ends: Ends, q: QId): (map<QId, Link>, Ends)
    requires ends.tail.Some? ==> ends.tail.value in links
  {
    var own := links[q := Link(None, ends.tail)];
    if ends.tail.Some? then (own[ends.tail.value := own[ends.tail.value].(next := Some(q))], ends.(tail := Some(q)))
    else (own, Ends(Some(q), Some(q)))
  }

  function UnlinkedNext(links: map<QId, Link>, ends: Ends, q: QId): (map<QId, Link>, Ends)
    requires q in links && (links[q].back.Some? ==> links[q].back.value in links)
  {
    if links[q].back.Some? then
      (links[links[q].back.value := links[links[q].back.value].(next := links[q].next)], ends)
    else (links, ends.(head := links[q].next))
  }

  function UnlinkedBack(links: map<QId, Link>, ends: Ends, q: QId): (map<QId, Link>, Ends)
    requires q in links && (links[q].next.Some? ==> links[q].next.value in links)
  {
    if links[q].next.Some? then
      (links[links[q].next.value := links[links[q].next.value].(back := links[q].back)], ends)
    else (links, ends.(tail := links[q].back))
  }

  lemma LinkedIsListed(links: map<QId, Link>, ends: Ends, s: seq<QId>, q: QId)
    requires Listed(links, ends, s) && q !in s
    ensures ends.tail.Some? ==> ends.tail.value in links
    ensures var (l, e) := Linked(links, ends, q); Listed(l, e, s + [q])
  {
    if s != [] {
      assert s[|s| - 1] in s;
    }
    var (l, e) := Linked(links, ends, q);
    var t := s + [q];
    forall i | 0 <= i < |t| ensures t[i] in l && l[t[i]] == Link(Nth(t, i + 1), Nth(t, i - 1)) {
      if i < |s| {
        assert t[i] == s[i] && s[i] in s;
        assert i < |s| - 1 ==> s[i] != s[|s| - 1];
      }
    }
  }

  /** Another list does not notice when its queries' links are not touched. */
  lemma StillListed(links: map<QId, Link>, l: map<QId, Link>, ends: Ends, s: seq<QId>)
    requires Listed(links, ends, s) && forall q :: q in s ==> q in l && q in links && l[q] == links[q]
    ensures Listed(l, ends, s)
  {
    forall i | 0 <= i < |s| ensures s[i] in l && l[s[i]] == Link(Nth(s, i + 1), Nth(s, i - 1)) {
      assert s[i] in s;
    }
  }

  /** Both halves of LIST_UNLINK. */
  function Unlinked(links: map<QId, Link>, ends: Ends, q: QId): (map<QId, Link>, Ends)
    requires q in links && (links[q].back.Some? ==> links[q].back.value in links && links[q].back.value != q)
    requires links[q].next.Some? ==> links[q].next.value in links
  {
    var (l, e) := UnlinkedNext(links, ends, q);
    UnlinkedBack(l, e, q)
  }

  lemma UnlinkedLinks(links: map<QId, Link>, ends: Ends, q: QId)
    requires q in links && (links[q].back.Some? ==> links[q].back.value in links && links[q].back.value != q)
    requires links[q].next.Some? ==> links[q].next.value in links && links[q].next.value != q
    ensures var (l, e) := Unlinked(links, ends, q);
            l.Keys == links.Keys &&
            (forall r :: r in links ==>
               l[r] == Link(if links[q].back == Some(r) then links[q].next else links[r].next,
                            if links[q].next == Some(r) then links[q].back else links[r].back)) &&
            e == Ends(if links[q].back.None? then links[q].next else ends.head,
                      if links[q].next.None? then links[q].back else ends.tail)
  {
  }

  /** A query of a list, and its neighbours. */
  lemma Neighbours(links: map<QId, Link>, ends: Ends, s: seq<QId>, i: nat)
    requires Listed(links, ends, s) && i < |s|
    ensures s[i] in links && links[s[i]] == Link(Nth(s, i + 1), Nth(s, i - 1))
    ensures i > 0 ==> s[i - 1] in links && s[i - 1] != s[i]
    ensures i + 1 < |s| ==> s[i + 1] in links && s[i + 1] != s[i]
  {
  }

  /** Without its `i`th query, the neighbours in `t` are those in `s` except where the gap has closed. */
  lemma GapCloses(s: seq<QId>, i: nat, j: nat)
    requires NoDup(s) && i < |s| && j < |s| - 1
    ensures var t, k := s[..i] + s[i + 1..], if j < i then j else j + 1;
            t[j] == s[k] && Nth(t, j + 1) == (if k == i - 1 then Nth(s, i + 1) else Nth(s, k + 1)) &&
            Nth(t, j - 1) == (if k == i + 1 then Nth(s, i - 1) else Nth(s, k - 1)) &&
            (Nth(s, i - 1) == Some(s[k]) <==> k == i - 1) && (Nth(s, i + 1) == Some(s[k]) <==> k == i + 1)
  {
    RemovedAt(s, i, j);
    if j > 0 {
      RemovedAt(s, i, j - 1);
    }
    if j + 1 < |s| - 1 {
      RemovedAt(s, i, j + 1);
    }
  }

  lemma UnlinkedIsListed(links: map<QId, Link>, ends: Ends, s: seq<QId>, i: nat)
    requires Listed(links, ends, s) && i < |s|
    ensures var q := s[i];
            q in links && (links[q].back.Some? ==> links[q].back.value in links && links[q].back.value != q) &&
            (links[q].next.Some? ==> links[q].next.value in links && links[q].next.value != q) &&
            var (l, e) := Unlinked(links, ends, q);
            Listed(l, e, s[..i] + s[i + 1..])
  {
    var q := s[i];
    Neighbours(links, ends, s, i);
    UnlinkedLinks(links, ends, q);
    hide Unlinked;
    var (l, e) := Unlinked(links, ends, q);
    var t := s[..i] + s[i + 1..];
    forall j | 0 <= j < |t| ensures t[j] in l && l[t[j]] == Link(Nth(t, j + 1), Nth(t, j - 1)) {
      GapCloses(s, i, j);
      Neighbours(links, ends, s, if j < i then j else j + 1);
    }
    NoDupWithout(s, i);
    EndsWithout(s, i);
  }

  lemma EndsWithout(s: seq<QId>, i: nat)
    requires i < |s|
    ensures var t := s[..i] + s[i + 1..];
            Nth(t, 0) == (if i == 0 then Nth(s, 1) else Nth(s, 0)) &&
            Nth(t, |t| - 1) == (if i == |s| - 1 then Nth(s, i - 1) else Nth(s, |s| - 1))
  {
  }

  lemma NoDupWithout(s: seq<QId>, i: nat)
    requires NoDup(s) && i < |s|
    ensures NoDup(s[..i] + s[i + 1..])
  {
    var t := s[..i] + s[i + 1..];
    forall j, k | 0 <= j < k < |t| ensures t[j] != t[k] {
      RemovedAt(s, i, j);
      RemovedAt(s, i, k);
    }
  }

  lemma RemovedAt(s: seq<QId>, i: nat, j: nat)
    requires i < |s| && j < |s| - 1
    ensures (s[..i] + s[i + 1..])[j] == if j < i then s[j] else s[j + 1]
  {
  }

  lemma {:induction false} WithoutBoth(a: seq<QId>, b: seq<QId>, d: set<QId>)
    ensures Without(a + b, d) == Without(a, d) + Without(b, d)
  {
    if a == [] {
      assert a + b == b;
    } else {
      assert (a + b)[0] == a[0] && (a + b)[1..] == a[1..] + b;
      WithoutBoth(a[1..], b, d);
    }
  }

  lemma SplitAt(s: seq<QId>, i: nat)
    requires i < |s|
    ensures s == s[..i] + ([s[i]] + s[i + 1..])
  {
  }

  lemma OnlyHere(s: seq<QId>, i: nat)
    requires NoDup(s) && i < |s|
    ensures s[i] !in s[..i] && s[i] !in s[i + 1..]
  {
  }

  lemma RemoveOne(s: seq<QId>, i: nat)
    requires NoDup(s) && i < |s|
    ensures Without(s, {s[i]}) == s[..i] + s[i + 1..]
  {
    hide Without;
    SplitAt(s, i);
    OnlyHere(s, i);
    hide NoDup;
    RemovedBetween(s[..i], s[i], s[i + 1..]);
  }

  lemma RemovedBetween(a: seq<QId>, q: QId, b: seq<QId>)
    requires q !in a && q !in b
    ensures Without(a + ([q] + b), {q}) == a + b
  {
    hide Without;
    WithoutBoth(a, [q] + b, {q});
    WithoutBoth([q], b, {q});
    WithoutAll([q], {q});
    WithoutNone(a, {q});
    WithoutNone(b, {q});
    assert [] + b == b;
  }

  // ---------- A family of lists ----------

  class Lists<K(==,!new)> {
    var links: map<QId, Link>
    var ends: map<K, Ends>
    ghost var lists: map<K, seq<QId>>

    ghost predicate Valid()
      reads this
    {
      AllListed(links, ends, lists)
    }

    /** True of queries on no list. */
    ghost predicate Unlisted(q: QId)
      reads this
    {
      forall k :: k in lists ==> q !in lists[k]
    }

    constructor (keys: set<K>)
      ensures Valid() && lists == map k | k in keys :: []
    {
      links, ends := map[], map k | k in keys :: Ends(None, None);
      lists := map k | k in keys :: [];
    }

    // ADNS_LIST_INIT
    method Init(k: K)
      requires Valid() && (k in lists ==> lists[k] == [])
      modifies this
      ensures Valid() && lists == old(lists)[k := []]
    {
      ends := ends[k := Ends(None, None)];
      lists := lists[k := []];
    }

    // LIST_LINK_TAIL_PART
    method LinkTail(k: K, q: QId)
      requires Valid() && k in lists && Unlisted(q)
      modifies this
      ensures Valid() && lists == old(lists)[k := old(lists[k]) + [q]]
    {
      hide Listed;
      ghost var was, before := links, ends;
      LinkedIsListed(links, ends[k], lists[k], q);
      LinkedTouches(links, ends[k], lists[k], q);
      links := links[q := Link(None, ends[k].tail)];
      if ends[k].tail.Some? {
        var t := ends[k].tail.value;
        links := links[t := links[t].(next := Some(q))];
        ends := ends[k := ends[k].(tail := Some(q))];
      } else {
        ends := ends[k := Ends(Some(q), Some(q))];
      }
      AppendedApart(lists, k, q);
      forall l | l in lists && l != k ensures Listed(links, ends[l], lists[l]) {
        ListedLive(was, before[l], lists[l]);
        StillListed(was, links, before[l], lists[l]);
      }
      lists := lists[k := lists[k] + [q]];
    }

    // LIST_UNLINK_PART. The query keeps its own pointers, so that a loop that unlinks it can still go on from it.
    method Unlink(k: K, q: QId)
      requires Valid() && k in lists && q in lists[k]
      modifies this
      ensures Valid() && lists == old(lists)[k := Without(old(lists[k]), {q})]
      ensures q in old(links) && q in links && links[q] == old(links[q])
    {
      hide Listed;
      hide Apart;
      hide Without;
      hide Unlinked;
      ghost var was, before, whole := links, ends, lists;
      UnlinkableIn(was, before, whole, k, q);
      var l := links[q];
      if l.back.Some? {
        links := links[l.back.value := links[l.back.value].(next := l.next)];
      } else {
        ends := ends[k := ends[k].(head := l.next)];
      }
      if l.next.Some? {
        links := links[l.next.value := links[l.next.value].(back := l.back)];
      } else {
        ends := ends[k := ends[k].(tail := l.back)];
      }
      lists := lists[k := Without(lists[k], {q})];
      IsUnlinked(was, before[k], q, links, ends[k]);
      UnlinkedIn(was, before, whole, k, q, links, ends);
    }

    /** Where a walk through the list goes. */
    lemma Walk(k: K, i: nat)
      requires Valid() && k in lists && i <= |lists[k]|
      ensures ends[k].head == Nth(lists[k], 0)
      ensures i < |lists[k]| ==> lists[k][i] in links && links[lists[k][i]].next == Nth(lists[k], i + 1)
    {
    }

    // DLIST_ASSERTON: the query is found before the list ends.
    method AssertOn(k: K, q: QId) returns (i: nat)
      requires Valid() && k in lists && q in lists[k]
      ensures i < |lists[k]| && lists[k][i] == q
    {
      hide Listed;
      hide Apart;
      i := 0;
      ghost var j: nat :| j < |lists[k]| && lists[k][j] == q;
      Walk(k, 0);
      var node := ends[k].head;
      while node != Some(q)
        invariant i <= j && node == Nth(lists[k], i)
        decreases j - i
      {
        assert node.Some?;
        Walk(k, i);
        node := links[node.value].next;
        i := i + 1;
      }
    }

    /** DLIST_CHECK: its assertions hold, and it meets the queries of the list. */
    method Check(k: K) returns (seen: seq<QId>)
      requires Valid() && k in lists
      ensures seen == lists[k]
    {
      hide Listed;
      seen := [];
      Walk(k, 0);
      if ends[k].head.Some? {
        Neighbours(links, ends[k], lists[k], 0);
        assert links[ends[k].head.value].back.None?;
        var node := ends[k].head;
        while node.Some?
          invariant |seen| <= |lists[k]| && node == Nth(lists[k], |seen|) && seen == lists[k][..|seen|]
          decreases |lists[k]| - |seen|
        {
          Neighbours(links, ends[k], lists[k], |seen|);
          if |seen| + 1 < |lists[k]| {
            Neighbours(links, ends[k], lists[k], |seen| + 1);
          }
          ListedEnds(links, ends[k], lists[k]);
          assert if links[node.value].next.Some? then links[links[node.value].next.value].back == node
                 else ends[k].tail == node;
          seen := seen + [node.value];
          node := links[node.value].next;
        }
      }
    }
  }

  /** No query is on two lists. */
  ghost predicate Apart<K(!new)>(lists: map<K, seq<QId>>)
  {
    forall k, l, q :: k in lists && l in lists && q in lists[k] && q in lists[l] ==> k == l
  }

  lemma WithoutApart<K(!new)>(lists: map<K, seq<QId>>, k: K, d: set<QId>)
    requires Apart(lists) && k in lists
    ensures Apart(lists[k := Without(lists[k], d)])
  {
  }

  lemma OthersListed<K(!new)>(was: map<QId, Link>, now: map<QId, Link>, ends: map<K, Ends>, lists: map<K, seq<QId>>,
                              k: K)
    requires ends.Keys == lists.Keys && k in lists && Apart(lists)
    requires forall l :: l in lists ==> Listed(was, ends[l], lists[l])
    requires forall r :: r in was ==> r in now && (now[r] == was[r] || r in lists[k])
    ensures forall l :: l in lists && l != k ==> Listed(now, ends[l], lists[l])
  {
    hide Listed;
    forall l | l in lists && l != k ensures Listed(now, ends[l], lists[l]) {
      ListedLive(was, ends[l], lists[l]);
      StillListed(was, now, ends[l], lists[l]);
    }
  }

  ghost predicate AllListed<K(!new)>(links: map<QId, Link>, ends: map<K, Ends>, lists: map<K, seq<QId>>)
  {
    ends.Keys == lists.Keys && (forall k :: k in lists ==> Listed(links, ends[k], lists[k])) && Apart(lists)
  }

  /** A query on a list, and its neighbours, are linked. */
  lemma UnlinkableIn<K(!new)>(links: map<QId, Link>, ends: map<K, Ends>, lists: map<K, seq<QId>>, k: K, q: QId)
    requires AllListed(links, ends, lists) && k in lists && q in lists[k]
    ensures q in links && (links[q].back.Some? ==> links[q].back.value in links && links[q].back.value != q)
    ensures links[q].next.Some? ==> links[q].next.value in links && links[q].next.value != q
  {
    hide Unlinked;
    var i: nat :| i < |lists[k]| && lists[k][i] == q;
    UnlinkedIsListed(links, ends[k], lists[k], i);
  }

  /** Unlinking takes a query off its list, and leaves the other lists as they are. */
  lemma UnlinkedIn<K(!new)>(links: map<QId, Link>, ends: map<K, Ends>, lists: map<K, seq<QId>>, k: K, q: QId,
                            l: map<QId, Link>, e: map<K, Ends>)
    requires AllListed(links, ends, lists) && k in lists && q in lists[k]
    requires q in links && (links[q].back.Some? ==> links[q].back.value in links && links[q].back.value != q)
    requires links[q].next.Some? ==> links[q].next.value in links && links[q].next.value != q
    requires k in e && e == ends[k := e[k]] && (l, e[k]) == Unlinked(links, ends[k], q)
    requires forall r :: r in links ==>
               r in l && (l[r] == links[r] || links[q].back == Some(r) || links[q].next == Some(r))
    ensures AllListed(l, e, lists[k := Without(lists[k], {q})])
  {
    hide Listed;
    hide Apart;
    hide Without;
    hide Unlinked;
    var i: nat :| i < |lists[k]| && lists[k][i] == q;
    UnlinkedIsListed(links, ends[k], lists[k], i);
    UnlinkedTouches(links, ends[k], lists[k], i);
    ListedNoDup(links, ends[k], lists[k]);
    RemoveOne(lists[k], i);
    WithoutApart(lists, k, {q});
    OthersListed(links, l, ends, lists, k);
  }

  function AfterNext(links: map<QId, Link>, q: QId): map<QId, Link>
    requires q in links && (links[q].back.Some? ==> links[q].back.value in links)
  {
    var b := links[q].back;
    if b.Some? then links[b.value := links[b.value].(next := links[q].next)] else links
  }

  function AfterBack(links: map<QId, Link>, own: Link): map<QId, Link>
    requires own.next.Some? ==> own.next.value in links
  {
    if own.next.Some? then links[own.next.value := links[own.next.value].(back := own.back)] else links
  }

  lemma IsUnlinked(links: map<QId, Link>, ends: Ends, q: QId, l: map<QId, Link>, e: Ends)
    requires q in links && (links[q].back.Some? ==> links[q].back.value in links && links[q].back.value != q)
    requires links[q].next.Some? ==> links[q].next.value in links && links[q].next.value != q
    requires l == AfterBack(AfterNext(links, q), links[q])
    requires e == Ends(if links[q].back.None? then links[q].next else ends.head,
                       if links[q].next.None? then links[q].back else ends.tail)
    ensures (l, e) == Unlinked(links, ends, q) && q in l && l[q] == links[q]
    ensures forall r :: r in links ==>
              r in l && (l[r] == links[r] || links[q].back == Some(r) || links[q].next == Some(r))
  {
  }

  lemma ListedEnds(links: map<QId, Link>, ends: Ends, s: seq<QId>)
    requires Listed(links, ends, s)
    ensures ends == Ends(Nth(s, 0), Nth(s, |s| - 1))
  {
  }

  lemma AppendedApart<K(!new)>(lists: map<K, seq<QId>>, k: K, q: QId)
    requires Apart(lists) && k in lists && forall l :: l in lists ==> q !in lists[l]
    ensures Apart(lists[k := lists[k] + [q]])
  {
  }

  lemma ListedNoDup(links: map<QId, Link>, ends: Ends, s: seq<QId>)
    requires Listed(links, ends, s)
    ensures NoDup(s)
  {
  }

  lemma ListedLive(links: map<QId, Link>, ends: Ends, s: seq<QId>)
    requires Listed(links, ends, s)
    ensures forall q :: q in s ==> q in links
  {
    forall q | q in s ensures q in links {
      var i :| 0 <= i < |s| && s[i] == q;
    }
  }

  /** Linking touches the new query and the old tail only. */
  lemma LinkedTouches(links: map<QId, Link>, ends: Ends, s: seq<QId>, q: QId)
    requires Listed(links, ends, s)
    ensures ends.tail.Some? ==> ends.tail.value in links && ends.tail.value in s
  {
    if s != [] {
      assert s[|s| - 1] in s;
    }
  }

  /** Unlinking touches queries of the list only. */
  lemma UnlinkedTouches(links: map<QId, Link>, ends: Ends, s: seq<QId>, i: nat)
    requires Listed(links, ends, s) && i < |s|
    ensures s[i] in links && (links[s[i]].back.Some? ==> links[s[i]].back.value in s) &&
            (links[s[i]].next.Some? ==> links[s[i]].next.value in s)
  {
    Neighbours(links, ends, s, i);
  }
}
