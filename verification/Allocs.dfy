/** The memory of an answer while a query runs, and the single block it ends up in (adns/query.c:465-575,
    643-684, 747-773, adns/types.c:157-195, 731-748). */
module Allocs {
  import opened Basics

  type BlockId = nat

  const ALIGN := 8  // sizeof(union maxalign)

  const ANSWER := 56  // sizeof(adns_answer), with pointers of 8 bytes

  // MEM_ROUND
  function Round(sz: nat): (r: nat)
    ensures sz <= r < sz + ALIGN && r % ALIGN == 0
  {
    (sz + ALIGN - 1) / ALIGN * ALIGN
  }

  // ---------- Sums ----------

  ghost function Sum(live: map<BlockId, nat>): nat
    decreases |live|
  {
    if live == map[] then 0
    else
      var b :| b in live;
      assert |live - {b}| < |live| by { Smaller(live, b); }
      live[b] + Sum(live - {b})
  }

  lemma Smaller(live: map<BlockId, nat>, b: BlockId)
    requires b in live
    ensures |live - {b}| < |live|
  {
    assert (live - {b}).Keys == live.Keys - {b};
    assert |live - {b}| == |(live - {b}).Keys| && |live| == |live.Keys|;
  }

  /** Any block may be counted first. */
  lemma {:induction false} SumRemove(live: map<BlockId, nat>, b: BlockId)
    requires b in live
    ensures Sum(live) == live[b] + Sum(live - {b})
    decreases |live|
  {
    var c :| c in live && Sum(live) == live[c] + Sum(live - {c});
    if c != b {
      Smaller(live, c);
      Smaller(live, b);
      SumRemove(live - {c}, b);
      SumRemove(live - {b}, c);
      assert live - {c} - {b} == live - {b} - {c};
    }
  }

  lemma SumAdd(live: map<BlockId, nat>, b: BlockId, n: nat)
    requires b !in live
    ensures Sum(live[b := n]) == Sum(live) + n
  {
    SumRemove(live[b := n], b);
    assert live[b := n] - {b} == live;
  }

  function Only(live: map<BlockId, nat>, kept: set<BlockId>): map<BlockId, nat>
  {
    map b | b in live && b in kept :: live[b]
  }

  // ---------- Blocks and what points at them ----------

  class Heap {
    var data: map<BlockId, seq<Byte>>
    var next: BlockId

    constructor ()
      ensures Valid()
    {
      data, next := map[], 0;
    }

    ghost predicate Valid()
      reads this
    {
      forall b :: b in data ==> b < next
    }
  }

  /** Something the answer points at: a C string, or a table of a given size. */
  datatype Piece = Str(block: BlockId) | Table(block: BlockId, size: nat)

  function StrLen(s: seq<Byte>): (n: nat)
    requires 0 in s
    ensures n < |s| && s[n] == 0 && forall i :: 0 <= i < n ==> s[i] != 0
  {
    if s[0] == 0 then 0 else StrLen(s[1..]) + 1
  }

  predicate PieceFits(data: map<BlockId, seq<Byte>>, p: Piece)
  {
    p.block in data && match p case Str(b) => 0 in data[b] case Table(b, size) => 0 < size <= |data[b]|
  }

  /** How much of its block is copied into the final answer. */
  function FinalLen(data: map<BlockId, seq<Byte>>, p: Piece): (n: nat)
    requires PieceFits(data, p)
    ensures 0 < n <= |data[p.block]|
  {
    match p case Str(b) => StrLen(data[b]) + 1 case Table(_, size) => size
  }

  ghost predicate AllFit(data: map<BlockId, seq<Byte>>, pieces: seq<Piece>)
  {
    forall i :: 0 <= i < |pieces| ==> PieceFits(data, pieces[i])
  }

  ghost predicate Distinct(pieces: seq<Piece>)
  {
    forall i, j :: 0 <= i < j < |pieces| ==> pieces[i].block != pieces[j].block
  }

  /** Room for the pieces, one behind the other. */
  ghost function Needed(data: map<BlockId, seq<Byte>>, pieces: seq<Piece>): nat
    requires AllFit(data, pieces)
  {
    if pieces == [] then 0 else Needed(data, pieces[..|pieces| - 1]) + Round(FinalLen(data, pieces[|pieces| - 1]))
  }

  /** Every live block is counted with its rounded size. */
  ghost predicate Sized(data: map<BlockId, seq<Byte>>, live: map<BlockId, nat>)
  {
    forall b :: b in live ==> b in data && live[b] == Round(|data[b]|)
  }

  /** True when the pieces are in blocks of their own that are all counted. */
  ghost predicate Counted(data: map<BlockId, seq<Byte>>, live: map<BlockId, nat>, pieces: seq<Piece>)
  {
    AllFit(data, pieces) && Distinct(pieces) && forall i :: 0 <= i < |pieces| ==> pieces[i].block in live
  }

  lemma NewBlock(data: map<BlockId, seq<Byte>>, live: map<BlockId, nat>, pieces: seq<Piece>, b: BlockId, d: seq<Byte>)
    requires b !in data && Sized(data, live) && Counted(data, live, pieces)
    ensures Sized(data[b := d], live[b := Round(|d|)]) && Counted(data[b := d], live[b := Round(|d|)], pieces)
    ensures Sized(data[b := d], live) && Counted(data[b := d], live, pieces)
    ensures forall i :: 0 <= i < |pieces| ==> pieces[i].block != b
  {
    hide Round;
    assert forall i :: 0 <= i < |pieces| ==> pieces[i].block in data && PieceFits(data, pieces[i]);
  }

  lemma OneMorePiece(data: map<BlockId, seq<Byte>>, live: map<BlockId, nat>, pieces: seq<Piece>, p: Piece)
    requires Counted(data, live, pieces) && PieceFits(data, p) && p.block in live
    requires forall i :: 0 <= i < |pieces| ==> pieces[i].block != p.block
    ensures Counted(data, live, pieces + [p]) && Counted(data, live, [p] + pieces)
  {
  }

  lemma RoundMonotone(a: nat, b: nat)
    requires a <= b
    ensures Round(a) <= Round(b)
  {
  }

  /** What is counted always suffices for what is copied. */
  lemma {:induction false} CountedSuffices(data: map<BlockId, seq<Byte>>, live: map<BlockId, nat>, pieces: seq<Piece>)
    requires Counted(data, live, pieces) && Sized(data, live)
    ensures Needed(data, pieces) <= Sum(live)
    decreases |pieces|
  {
    if pieces != [] {
      var p, front := pieces[|pieces| - 1], pieces[..|pieces| - 1];
      SumRemove(live, p.block);
      RoundMonotone(FinalLen(data, p), |data[p.block]|);
      hide Round;
      assert forall i :: 0 <= i < |front| ==> front[i] == pieces[i];
      CountedSuffices(data, live - {p.block}, front);
    }
  }

  /** A string with its length beside it keeps all its bytes if and only if none of them is zero
      (adns/query.c:747-759 measures it anew). */
  lemma StringSurvives(text: seq<Byte>)
    ensures StrLen(text + [0]) == |text| <==> 0 !in text
    ensures 0 in text ==> StrLen(text + [0]) < |text|
  {
    var s := text + [0];
    var n := StrLen(s);
    if 0 in text {
      var i :| 0 <= i < |text| && text[i] == 0;
      assert s[i] == 0;
    }
    if n < |text| {
      assert text[n] == s[n];
    }
  }

  // ---------- The allocator ----------

  lemma PieceBehind(data: map<BlockId, seq<Byte>>, live: map<BlockId, nat>, a: seq<Piece>, b: seq<Piece>)
    requires Counted(data, live, a + b)
    ensures Counted(data, live, b) && Counted(data, live, a)
  {
    assert forall i :: 0 <= i < |a| ==> (a + b)[i] == a[i];
    assert forall i :: 0 <= i < |b| ==> (a + b)[|a| + i] == b[i];
  }

  ghost predicate Elsewhere(pieces: seq<Piece>, b: BlockId) { forall i :: 0 <= i < |pieces| ==> pieces[i].block != b }

  lemma ElsewhereAppend(a: seq<Piece>, c: seq<Piece>, b: BlockId)
    ensures Elsewhere(a + c, b) <==> Elsewhere(a, b) && Elsewhere(c, b)
  {
    assert forall i :: 0 <= i < |a| ==> (a + c)[i] == a[i];
    assert forall i :: 0 <= i < |c| ==> (a + c)[|a| + i] == c[i];
  }

  function Strs(b: Option<BlockId>): seq<Piece> { if b.Some? then [Str(b.value)] else [] }

  ghost predicate Within(pieces: seq<Piece>, s: set<BlockId>) { forall i :: 0 <= i < |pieces| ==> pieces[i].block in s }

  ghost predicate Outside(pieces: seq<Piece>, s: set<BlockId>)
  {
    forall i :: 0 <= i < |pieces| ==> pieces[i].block !in s
  }

  /** What a query has allocated, and what of it its answer points at. */
  class Allocations {
    const heap: Heap
    var interim: int      // interim_allocd
    var preserved: int    // preserved_allocd
    var cname: Option<BlockId>
    var owner: Option<BlockId>
    var rrs: seq<Piece>   // the table of records and what hangs on it, in the order of finalisation
    ghost var live: map<BlockId, nat>
    ghost var kept: set<BlockId>

    ghost function Pieces(): seq<Piece>
      reads this
    {
      Strs(cname) + (Strs(owner) + rrs)
    }

    /** The two counters are the sums of the blocks they count. */
    ghost predicate CountersRight()
      reads this, heap
    {
      heap.Valid() && kept <= live.Keys <= heap.data.Keys && Sized(heap.data, live) &&
      interim == Sum(live) && preserved == Sum(Only(live, kept))
    }

    /** And whatever the answer points at is counted: its names in preserved blocks, the rest in others. */
    ghost predicate Valid()
      reads this, heap
    {
      CountersRight() && Counted(heap.data, live, Pieces()) &&
      (cname.Some? ==> cname.value in kept) && (owner.Some? ==> owner.value in kept) && Outside(rrs, kept)
    }

    constructor (heap: Heap)
      requires heap.Valid()
      ensures Valid() && this.heap == heap && live == map[] && Pieces() == []
    {
      this.heap := heap;
      interim, preserved, cname, owner, rrs, live, kept := 0, 0, None, None, [], map[], {};
      new;
      assert Only(live, kept) == map[];
    }

    // adns__alloc_interim and, with `keep`, adns__alloc_preserved; the caller fills in the data.
    method Alloc(data: seq<Byte>, keep: bool) returns (b: BlockId)
      requires Valid() && data != []
      modifies this, heap
      ensures Valid() && heap.data == old(heap.data)[b := data] && b !in old(heap.data)
      ensures live == old(live)[b := Round(|data|)] && kept == old(kept) + if keep then {b} else {}
      ensures rrs == old(rrs) && cname == old(cname) && owner == old(owner) && Elsewhere(Pieces(), b)
    {
      hide Round;
      hide Sum;
      hide Counted;
      hide Sized;
      b := heap.next;
      SumAdd(live, b, Round(|data|));
      SumAdd(Only(live, kept), b, Round(|data|));
      assert Only(live[b := Round(|data|)], kept + {b}) == Only(live, kept)[b := Round(|data|)];
      assert Only(live[b := Round(|data|)], kept) == Only(live, kept);
      NewBlock(heap.data, live, Pieces(), b, data);
      ElsewhereAppend(Strs(cname), Strs(owner) + rrs, b);
      ElsewhereAppend(Strs(owner), rrs, b);
      heap.data, heap.next := heap.data[b := data], b + 1;
      interim := interim + Round(|data|);
      live := live[b := Round(|data|)];
      if keep {
        preserved := preserved + Round(|data|);
        kept := kept + {b};
      }
    }

    // The answer's canonical name (adns/reply.c:277-288). An older one stays allocated.
    method SetCname(text: seq<Byte>)
      requires Valid()
      modifies this, heap
      ensures Valid() && cname.Some? && cname.value in heap.data && heap.data[cname.value] == text + [0]
      ensures owner == old(owner) && rrs == old(rrs)
    {
      hide Counted;
      hide Sized;
      hide Sum;
      var b := Alloc(text + [0], true);
      assert (text + [0])[|text|] == 0;
      PieceBehind(heap.data, live, Strs(cname), Strs(owner) + rrs);
      ElsewhereAppend(Strs(cname), Strs(owner) + rrs, b);
      OneMorePiece(heap.data, live, Strs(owner) + rrs, Str(b));
      cname := Some(b);
    }

    // save_owner; there is none yet.
    method SaveOwner(text: seq<Byte>)
      requires Valid() && owner.None?
      modifies this, heap
      ensures Valid() && owner.Some? && owner.value in heap.data && heap.data[owner.value] == text + [0]
      ensures cname == old(cname) && rrs == old(rrs)
    {
      hide Counted;
      hide Sized;
      hide Sum;
      var b := Alloc(text + [0], true);
      assert (text + [0])[|text|] == 0;
      PieceBehind(heap.data, live, Strs(cname), Strs(owner) + rrs);
      ElsewhereAppend(Strs(cname), Strs(owner) + rrs, b);
      assert Strs(owner) + rrs == rrs;
      InTheMiddle(heap.data, live, Strs(cname), Str(b), rrs);
      owner := Some(b);
    }

    // A string or a table that a record points at.
    method AddPiece(data: seq<Byte>, asString: bool)
      requires Valid() && data != []
      modifies this, heap
      ensures Valid() && cname == old(cname) && owner == old(owner)
      ensures |rrs| == |old(rrs)| + 1 && rrs[..|old(rrs)|] == old(rrs)
      ensures var p, stored := rrs[|old(rrs)|], if asString then data + [0] else data;
              p.Str? == asString && p.block in heap.data && heap.data[p.block] == stored &&
              (p.Table? ==> p.size == |data|)
    {
      hide Counted;
      hide Sized;
      hide Sum;
      var stored := if asString then data + [0] else data;
      var b := Alloc(stored, false);
      assert asString ==> (data + [0])[|data|] == 0;
      var p := if asString then Str(b) else Table(b, |data|);
      OneMorePiece(heap.data, live, Pieces(), p);
      assert Pieces() + [p] == Strs(cname) + (Strs(owner) + (rrs + [p]));
      rrs := rrs + [p];
    }

    // adns__reset_preserved: the records are forgotten, the names stay.
    method Reset()
      requires Valid()
      modifies this
      ensures Valid() && rrs == [] && cname == old(cname) && owner == old(owner) && interim == preserved
      ensures live == Only(old(live), kept) && kept == old(kept)
    {
      hide Counted;
      hide Sized;
      hide Sum;
      ghost var names := Strs(cname) + Strs(owner);
      assert names + rrs == Pieces();
      PieceBehind(heap.data, live, names, rrs);
      OnlyKept(heap.data, live, kept, names);
      assert Strs(cname) + (Strs(owner) + []) == names;
      rrs := [];
      interim := preserved;
      live := Only(live, kept);
      assert Only(live, kept) == live;
    }

    // icb_hostaddr: the address table of a child that has finished becomes part of the record of the parent
    // whose other pieces end at `k`. The child is freed after this.
    method Adopt(child: Allocations, k: nat)
      requires Valid() && child.Valid() && child != this && child.heap == heap && live.Keys !! child.live.Keys
      requires k <= |rrs| && |child.rrs| <= 1
      requires child.rrs != [] ==> child.rrs[0].Table? && child.rrs[0].block in heap.data &&
                                   child.rrs[0].size == |heap.data[child.rrs[0].block]|
      modifies this, child
      ensures Valid() && child.CountersRight() && interim + child.interim == old(interim) + old(child.interim)
      ensures rrs == old(rrs[..k]) + old(child.rrs) + old(rrs[k..]) && cname == old(cname) && owner == old(owner)
      ensures live.Keys !! child.live.Keys && live.Keys + child.live.Keys == old(live.Keys) + old(child.live.Keys)
    {
      hide Counted;
      hide Sum;
      hide Round;
      hide Sized;
      hide PieceFits;
      hide Elsewhere;
      assert child.CountersRight();
      if child.rrs == [] {
        assert rrs[..k] + [] + rrs[k..] == rrs;
        return;
      }
      var p := child.rrs[0];
      LiveTable(heap.data, child.live, child.Pieces(), |Strs(child.cname) + Strs(child.owner)|, p);
      ghost var n := |heap.data[p.block]|;
      PiecesApart(heap.data, live, Pieces(), p.block);
      hide CountersRight;
      PieceInserted(heap.data, live, Strs(cname), Strs(owner), rrs, k, p, Round(n));
      Transfer(child, p.block, p.size);
      rrs := rrs[..k] + [p] + rrs[k..];
    }

    // adns__transfer_interim: both counters stay right, if the size is that of the block.
    method Transfer(from: Allocations, b: BlockId, size: nat)
      requires CountersRight() && from.CountersRight() && from != this && from.heap == heap
      requires b in from.live && b !in from.kept && b !in live && from.live[b] == Round(size)
      modifies this, from
      ensures CountersRight() && from.CountersRight()
      ensures from.interim == old(from.interim) - Round(size) && interim == old(interim) + Round(size)
      ensures live == old(live)[b := Round(size)] && from.live == old(from.live) - {b}
      ensures cname == old(cname) && owner == old(owner) && rrs == old(rrs) && kept == old(kept)
    {
      hide Sum;
      hide Round;
      hide Sized;
      SumAdd(live, b, Round(size));
      SumRemove(from.live, b);
      assert Only(live[b := Round(size)], kept) == Only(live, kept);
      assert Only(from.live - {b}, from.kept) == Only(from.live, from.kept);
      OneMoreLive(heap.data, live, from.live, b);
      InUse(heap.data, from.live, b);
      from.interim := from.interim - Round(size);
      interim := interim + Round(size);
      live := live[b := from.live[b]];
      from.live := from.live - {b};
    }

    // makefinal_query: everything the answer points at moves into one block behind the answer itself. `at` says
    // where the pieces have gone.
    method MakeFinal() returns (space: array<Byte>, at: seq<nat>)
      requires Valid()
      modifies this`interim
      ensures interim == old(interim) - Needed(heap.data, Pieces()) && interim >= 0
      ensures Copied(heap.data, Pieces(), at, space[..])
    {
      hide Copied;
      hide Needed;
      hide AllFit;
      hide Round;
      hide Finalised;
      ghost var most := interim;
      CountedSuffices(heap.data, live, Pieces());
      CountedFits(heap.data, live, Pieces());
      assert interim >= Needed(heap.data, Pieces()) >= 0;
      hide CountersRight;
      hide Counted;
      var pieces := Strs(cname) + (Strs(owner) + rrs);
      space := new Byte[if interim != 0 then Round(Round(ANSWER) + interim) else ANSWER];
      var final: nat := Round(ANSWER);
      at := [];
      NothingFinal(heap.data, pieces, space[..final], most);
      var k := 0;
      while k < |pieces|
        invariant 0 <= k <= |pieces| && final <= space.Length && space.Length >= Round(ANSWER) + most
        invariant Finalised(heap.data, pieces, k, at, space[..final], interim, most)
      {
        at, final := MakeFinalNext(pieces, k, space, at, final, most);
        k := k + 1;
      }
      AllFinalised(heap.data, pieces, at, space[..final], space[..], interim, most);
    }

    method MakeFinalNext(pieces: seq<Piece>, k: nat, space: array<Byte>, at: seq<nat>, final: nat, ghost most: nat)
      returns (at': seq<nat>, next: nat)
      requires AllFit(heap.data, pieces) && k < |pieces| && final <= space.Length &&
               space.Length >= Round(ANSWER) + most
      requires Finalised(heap.data, pieces, k, at, space[..final], interim, most)
      modifies this`interim, space
      ensures next <= space.Length && Finalised(heap.data, pieces, k + 1, at', space[..next], interim, most)
    {
      hide Copied;
      hide Needed;
      hide AllFit;
      hide Round;
      hide Finalised;
      hide CopiedTo;
      FinalisedNext(heap.data, pieces, k, at, space[..final], interim, most);
      ghost var s := space[..final];
      next := MakeFinalPiece(pieces[k], space, final);
      NextFinalised(heap.data, pieces, k, at, s, space[..next], interim, most);
      at' := at + [final];
    }

    // adns__makefinal_str and adns__makefinal_block, with adns__alloc_final.
    method MakeFinalPiece(p: Piece, space: array<Byte>, final: nat) returns (next: nat)
      requires PieceFits(heap.data, p) && ANSWER <= final && final + Round(FinalLen(heap.data, p)) <= space.Length
      requires interim >= Round(FinalLen(heap.data, p))
      modifies this`interim, space
      ensures interim == old(interim) - Round(FinalLen(heap.data, p)) && interim >= 0
      ensures next == final + Round(FinalLen(heap.data, p)) && space[..next][..final] == old(space[..final])
      ensures CopiedTo(heap.data, p, final, space[..next])
    {
      var l := match p case Str(b) => StrLen(heap.data[b]) + 1 case Table(_, size) => size;
      interim := interim - Round(l);
      assert interim >= 0;
      CopyInto(space, final, heap.data[p.block][..l]);
      next := final + Round(l);
    }
  }

  /** After `k` pieces: these have been copied, and what they take has been subtracted. */
  ghost predicate Finalised(data: map<BlockId, seq<Byte>>, pieces: seq<Piece>, k: nat, at: seq<nat>, s: seq<Byte>,
                            interim: int, most: nat)
    requires AllFit(data, pieces) && k <= |pieces|
  {
    AllFit(data, pieces[..k]) && Copied(data, pieces[..k], at, s) && Needed(data, pieces) <= most &&
    |s| == Round(ANSWER) + Needed(data, pieces[..k]) && interim == most - Needed(data, pieces[..k])
  }

  lemma NothingFinal(data: map<BlockId, seq<Byte>>, pieces: seq<Piece>, s: seq<Byte>, most: nat)
    requires AllFit(data, pieces) && |s| == Round(ANSWER) && Needed(data, pieces) <= most
    ensures Finalised(data, pieces, 0, [], s, most, most)
  {
    assert pieces[..0] == [];
    NothingCopied(data, s);
  }

  lemma FinalisedNext(data: map<BlockId, seq<Byte>>, pieces: seq<Piece>, k: nat, at: seq<nat>, s: seq<Byte>,
                      interim: int, most: nat)
    requires AllFit(data, pieces) && k < |pieces| && Finalised(data, pieces, k, at, s, interim, most)
    ensures PieceFits(data, pieces[k]) && ANSWER <= |s|
    ensures Round(FinalLen(data, pieces[k])) <= interim &&
            |s| + Round(FinalLen(data, pieces[k])) <= Round(ANSWER) + most
  {
    NeededGrows(data, pieces, k);
  }

  lemma NextFinalised(data: map<BlockId, seq<Byte>>, pieces: seq<Piece>, k: nat, at: seq<nat>, s: seq<Byte>,
                      t: seq<Byte>, interim: int, most: nat)
    requires AllFit(data, pieces) && k < |pieces| && PieceFits(data, pieces[k])
    requires Finalised(data, pieces, k, at, s, interim + Round(FinalLen(data, pieces[k])), most)
    requires |t| == |s| + Round(FinalLen(data, pieces[k])) && t[..|s|] == s && CopiedTo(data, pieces[k], |s|, t)
    ensures Finalised(data, pieces, k + 1, at + [|s|], t, interim, most)
  {
    NeededGrows(data, pieces, k);
    CopyNext(data, pieces, k, at, s, t);
  }

  lemma AllFinalised(data: map<BlockId, seq<Byte>>, pieces: seq<Piece>, at: seq<nat>, s: seq<Byte>, t: seq<Byte>,
                     interim: int, most: nat)
    requires AllFit(data, pieces) && Finalised(data, pieces, |pieces|, at, s, interim, most)
    requires |s| <= |t| && t[..|s|] == s
    ensures Copied(data, pieces, at, t) && interim == most - Needed(data, pieces) && interim >= 0
  {
    assert pieces[..|pieces|] == pieces;
    MoreSpace(data, pieces, at, s, t);
  }

  lemma NothingCopied(data: map<BlockId, seq<Byte>>, s: seq<Byte>)
    ensures AllFit(data, []) && Copied(data, [], [], s) && Needed(data, []) == 0
  {
  }

  lemma StillCopied(data: map<BlockId, seq<Byte>>, p: Piece, o: nat, s: seq<Byte>, t: seq<Byte>)
    requires PieceFits(data, p) && CopiedTo(data, p, o, s) && |s| <= |t| && t[..|s|] == s
    ensures CopiedTo(data, p, o, t)
  {
    InPrefix(t, |s|, o, o + FinalLen(data, p));
  }

  lemma InPrefix(t: seq<Byte>, n: nat, a: nat, b: nat)
    requires a <= b <= n <= |t|
    ensures t[..n][a..b] == t[a..b]
  {
  }

  lemma CopyNext(data: map<BlockId, seq<Byte>>, pieces: seq<Piece>, k: nat, at: seq<nat>, s: seq<Byte>, t: seq<Byte>)
    requires AllFit(data, pieces) && k < |pieces| && AllFit(data, pieces[..k]) && AllFit(data, pieces[..k + 1])
    requires Copied(data, pieces[..k], at, s) && |s| <= |t| && t[..|s|] == s && CopiedTo(data, pieces[k], |s|, t)
    ensures Copied(data, pieces[..k + 1], at + [|s|], t)
  {
    var front, more, at' := pieces[..k], pieces[..k + 1], at + [|s|];
    forall i | 0 <= i < |at'| ensures CopiedTo(data, more[i], at'[i], t) {
      if i < k {
        assert more[i] == front[i] && at'[i] == at[i];
        StillCopied(data, front[i], at[i], s, t);
      }
    }
    forall i, j | 0 <= i < j < |at'| ensures at'[i] + FinalLen(data, more[i]) <= at'[j] {
      assert more[i] == front[i] && at'[i] == at[i] && CopiedTo(data, front[i], at[i], s);
      if j < k {
        assert more[j] == front[j] && at'[j] == at[j];
      }
    }
  }

  lemma MoreSpace(data: map<BlockId, seq<Byte>>, pieces: seq<Piece>, at: seq<nat>, s: seq<Byte>, t: seq<Byte>)
    requires AllFit(data, pieces) && Copied(data, pieces, at, s) && |s| <= |t| && t[..|s|] == s
    ensures Copied(data, pieces, at, t)
  {
    forall i | 0 <= i < |at| ensures CopiedTo(data, pieces[i], at[i], t) {
      StillCopied(data, pieces[i], at[i], s, t);
    }
  }

  method CopyInto(space: array<Byte>, final: nat, data: seq<Byte>)
    requires final + |data| <= space.Length
    modifies space
    ensures space[..final] == old(space[..final]) && space[final..final + |data|] == data
  {
    forall i | 0 <= i < |data| {
      space[final + i] := data[i];
    }
  }

  /** The piece stands unchanged at offset `o`, behind the answer and inside `s`. */
  ghost predicate CopiedTo(data: map<BlockId, seq<Byte>>, p: Piece, o: nat, s: seq<Byte>)
    requires PieceFits(data, p)
  {
    var l := FinalLen(data, p);
    ANSWER <= o && o + l <= |s| && s[o..o + l] == data[p.block][..l]
  }

  /** All pieces stand unchanged at these offsets, one behind the other, behind the answer and inside `s`. */
  ghost predicate Copied(data: map<BlockId, seq<Byte>>, pieces: seq<Piece>, at: seq<nat>, s: seq<Byte>)
    requires AllFit(data, pieces)
  {
    |at| == |pieces| &&
    (forall k :: 0 <= k < |at| ==> CopiedTo(data, pieces[k], at[k], s)) &&
    (forall j, k :: 0 <= j < k < |at| ==> at[j] + FinalLen(data, pieces[j]) <= at[k])
  }

  lemma CountedFits(data: map<BlockId, seq<Byte>>, live: map<BlockId, nat>, pieces: seq<Piece>)
    requires Counted(data, live, pieces)
    ensures AllFit(data, pieces)
  {
  }

  lemma {:induction false} NeededGrows(data: map<BlockId, seq<Byte>>, pieces: seq<Piece>, k: nat)
    requires AllFit(data, pieces) && k < |pieces|
    ensures AllFit(data, pieces[..k]) && AllFit(data, pieces[..k + 1]) && PieceFits(data, pieces[k])
    ensures Needed(data, pieces[..k + 1]) == Needed(data, pieces[..k]) + Round(FinalLen(data, pieces[k]))
    ensures Needed(data, pieces[..k + 1]) <= Needed(data, pieces)
    decreases |pieces| - k
  {
    assert pieces[..k + 1][..k] == pieces[..k];
    if k + 1 < |pieces| {
      NeededGrows(data, pieces, k + 1);
    } else {
      assert pieces[..k + 1] == pieces;
    }
  }

  lemma LiveTable(data: map<BlockId, seq<Byte>>, live: map<BlockId, nat>, pieces: seq<Piece>, i: nat, p: Piece)
    requires Counted(data, live, pieces) && Sized(data, live) && i < |pieces| && pieces[i] == p
    ensures p.block in live && p.block in data && live[p.block] == Round(|data[p.block]|) && PieceFits(data, p)
  {
  }

  lemma PiecesApart(data: map<BlockId, seq<Byte>>, live: map<BlockId, nat>, pieces: seq<Piece>, b: BlockId)
    requires Counted(data, live, pieces) && b !in live
    ensures Elsewhere(pieces, b)
  {
  }

  lemma InUse(data: map<BlockId, seq<Byte>>, live: map<BlockId, nat>, b: BlockId)
    requires Sized(data, live) && b in live
    ensures b in data
  {
  }

  lemma OneMoreLive(data: map<BlockId, seq<Byte>>, live: map<BlockId, nat>, other: map<BlockId, nat>, b: BlockId)
    requires Sized(data, live) && Sized(data, other) && b in other
    ensures Sized(data, live[b := other[b]]) && Sized(data, other - {b})
  {
  }

  lemma PieceInserted(data: map<BlockId, seq<Byte>>, live: map<BlockId, nat>, a: seq<Piece>, b: seq<Piece>,
                      c: seq<Piece>,
                 k: nat, p: Piece, n: nat)
    requires Counted(data, live, a + (b + c)) && k <= |c| && PieceFits(data, p) && Elsewhere(a + (b + c), p.block)
    ensures Counted(data, live[p.block := n], a + (b + (c[..k] + [p] + c[k..])))
  {
    var front := a + (b + c[..k]);
    assert front + c[k..] == a + (b + c) by {
      assert c[..k] + c[k..] == c;
    }
    assert front + ([p] + c[k..]) == a + (b + (c[..k] + [p] + c[k..]));
    hide Counted;
    hide Elsewhere;
    MoreLive(data, live, a + (b + c), p.block, n);
    InTheMiddle(data, live[p.block := n], front, p, c[k..]);
  }

  lemma MoreLive(data: map<BlockId, seq<Byte>>, live: map<BlockId, nat>, pieces: seq<Piece>, b: BlockId, n: nat)
    requires Counted(data, live, pieces)
    ensures Counted(data, live[b := n], pieces)
  {
  }

  lemma InTheMiddle(data: map<BlockId, seq<Byte>>, live: map<BlockId, nat>, a: seq<Piece>, p: Piece, c: seq<Piece>)
    requires Counted(data, live, a + c) && PieceFits(data, p) && p.block in live && Elsewhere(a + c, p.block)
    ensures Counted(data, live, a + ([p] + c))
  {
    var s, t := a + c, a + ([p] + c);
    forall i | 0 <= i < |t| ensures PieceFits(data, t[i]) && t[i].block in live {
      PieceIn(a, p, c, i);
    }
    forall i, j | 0 <= i < j < |t| ensures t[i].block != t[j].block {
      PieceIn(a, p, c, i);
      PieceIn(a, p, c, j);
    }
  }

  lemma PieceIn(a: seq<Piece>, p: Piece, c: seq<Piece>, i: nat)
    requires i <= |a + c|
    ensures (a + ([p] + c))[i] == if i < |a| then (a + c)[i] else if i == |a| then p else (a + c)[i - 1]
  {
  }

  /** When all else is forgotten, the preserved pieces are still counted. */
  lemma OnlyKept(data: map<BlockId, seq<Byte>>, live: map<BlockId, nat>, kept: set<BlockId>, pieces: seq<Piece>)
    requires Sized(data, live) && Counted(data, live, pieces) && Within(pieces, kept)
    ensures Sized(data, Only(live, kept)) && Counted(data, Only(live, kept), pieces)
  {
    hide Round;
  }
}
