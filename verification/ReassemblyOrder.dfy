/**
 When the order of CRYPTO chunks matters. Every order of the same chunks ends alike if and only if
 the chunks are too many for any order, or few enough for all and consistent, as those of one stream are.
 */
module ReassemblyOrder {
  import opened Wrappers
  import opened Bytes
  import opened Frames
  import opened CryptoReassembly

  /** The same chunks, each as often, in some order. */
  ghost predicate Reorders(a: seq<Chunk>, chunks: seq<Chunk>) {
    multiset(a) == multiset(chunks)
  }

  ghost predicate SameChunks(a: seq<Chunk>, chunks: seq<Chunk>) {
    forall c :: c in a <==> c in chunks
  }

  lemma ReorderingsAreSame(a: seq<Chunk>, chunks: seq<Chunk>)
    requires Reorders(a, chunks)
    ensures SameChunks(a, chunks)
  {
    forall c ensures c in a <==> c in chunks {
      assert c in a <==> c in multiset(a);
      assert c in chunks <==> c in multiset(chunks);
    }
  }

  // ----- the condition

  /** Offsets at which chunks may have to wait. */
  ghost function Offsets(chunks: seq<Chunk>): set<nat> {
    set c | c in chunks && c.data != [] && c.offset > 0 :: c.offset
  }

  /** Something before the offset is never covered. */
  ghost predicate Cut(chunks: seq<Chunk>, offset: nat) {
    exists p: nat :: p < offset && !Covered(chunks, p)
  }

  /** Offsets at which chunks wait for ever. */
  ghost function Stranded(chunks: seq<Chunk>): set<nat> {
    set c | c in chunks && c.data != [] && Cut(chunks, c.offset) :: c.offset
  }

  /** A stranded chunk than which none at its offset is longer. */
  ghost predicate Longest(chunks: seq<Chunk>, c: Chunk) {
    c in chunks && c.data != [] && Cut(chunks, c.offset) &&
    forall d <- chunks :: d.offset == c.offset ==> |d.data| <= |c.data|
  }

  /** Two chunks that can supply a byte have the same there, and the longest stranded at an offset are equal. */
  ghost predicate Consistent(chunks: seq<Chunk>) {
    (forall q: nat, c, d | Supplies(chunks, c, q) && Supplies(chunks, d, q) :: c.data[q - c.offset] == d.data[q - d.offset]) &&
    (forall c, d | Longest(chunks, c) && Longest(chunks, d) && c.offset == d.offset :: c == d)
  }

  /** All orders of the chunks end alike, in one state or in one refusal. */
  ghost predicate OrderFree(chunks: seq<Chunk>) {
    forall a, b | Reorders(a, chunks) && Reorders(b, chunks) :: InsertAll(EMPTY, a) == InsertAll(EMPTY, b)
  }

  // ----- how many chunks fit

  lemma SubsetFits(a: set<nat>, b: set<nat>)
    requires a <= b
    ensures |a| <= |b|
  {
    assert b == a + (b - a);
  }

  lemma DrainForgets(st: State)
    ensures Drain(st).fragments.Keys <= st.fragments.Keys
  {
  }

  /** While what waits stays among few offsets, nothing is refused. */
  lemma InsertFits(st: State, c: Chunk, room: set<nat>)
    requires st.fragments.Keys <= room && |room| <= MAX_CRYPTO_FRAGMENTS
    requires c.data == [] || c.offset <= |st.bytes| || c.offset in room
    ensures Insert(st, c).Success? && Insert(st, c).value.fragments.Keys <= room
  {
    hide Drain, Append;
    if c.data != [] {
      if c.offset <= |st.bytes| {
        DrainForgets(st.(bytes := Append(st.bytes, c.offset, c.data)));
      } else {
        SubsetFits(st.fragments.Keys + {c.offset}, room);
        assert |st.fragments| == |st.fragments.Keys|;
      }
    }
  }

  lemma {:induction false} FewFit(st: State, chunks: seq<Chunk>, room: set<nat>)
    requires st.fragments.Keys <= room && |room| <= MAX_CRYPTO_FRAGMENTS && Offsets(chunks) <= room
    ensures InsertAll(st, chunks).Success?
    decreases |chunks|
  {
    hide Insert;
    if chunks != [] {
      var c := chunks[0];
      assert c.data == [] || c.offset == 0 || c.offset in Offsets(chunks);
      InsertFits(st, c, room);
      assert forall o <- Offsets(chunks[1..]) :: o in Offsets(chunks);
      FewFit(Insert(st, c).value, chunks[1..], room);
    }
  }

  /** Chunks at no more than 128 offsets beyond the start are refused in no order, repeated or not. */
  lemma FewOffsetsFit(chunks: seq<Chunk>, a: seq<Chunk>)
    requires |Offsets(chunks)| <= MAX_CRYPTO_FRAGMENTS && forall c <- a :: c in chunks
    ensures InsertAll(EMPTY, a).Success?
  {
    assert forall o <- Offsets(a) :: o in Offsets(chunks);
    FewFit(EMPTY, a, Offsets(chunks));
  }

  /** Stranded chunks all wait in the end. */
  lemma StrandedWait(st: State, chunks: seq<Chunk>)
    requires Settled(st, chunks) && Bounded(st)
    ensures Stranded(chunks) <= st.fragments.Keys && |Stranded(chunks)| <= MAX_CRYPTO_FRAGMENTS
  {
    forall c | c in chunks && c.data != [] && Cut(chunks, c.offset) ensures c.offset in st.fragments {
      CutIsBeyond(st, chunks, c.offset);
    }
    SubsetFits(Stranded(chunks), st.fragments.Keys);
    assert |st.fragments| == |st.fragments.Keys|;
  }

  lemma CutIsBeyond(st: State, chunks: seq<Chunk>, offset: nat)
    requires Settled(st, chunks)
    ensures Cut(chunks, offset) <==> offset > |st.bytes|
  {
    hide LongestBeyond, Supplied;
    forall p: nat | p < |st.bytes| ensures Covered(chunks, p) {
      assert CoveredBy(chunks, p, |st.bytes|);
    }
    if offset > |st.bytes| {
      assert !Covered(chunks, |st.bytes|);
    }
  }

  lemma BoundedStart(chunks: seq<Chunk>)
    requires InsertAll(EMPTY, chunks).Success?
    ensures Bounded(InsertAll(EMPTY, chunks).value)
  {
    InsertAllBounded(EMPTY, chunks);
  }

  // ----- orders that show the difference

  /** The chunks that are chosen, or those that are not. */
  function Chosen(chunks: seq<Chunk>, chosen: Chunk -> bool, yes: bool): (r: seq<Chunk>)
    ensures forall c :: c in r <==> c in chunks && chosen(c) == yes
  {
    if chunks == [] then []
    else
      var rest := Chosen(chunks[1..], chosen, yes);
      if chosen(chunks[0]) == yes then [chunks[0]] + rest else rest
  }

  lemma {:induction false} ChosenFirst(chunks: seq<Chunk>, chosen: Chunk -> bool)
    ensures Reorders(Chosen(chunks, chosen, true) + Chosen(chunks, chosen, false), chunks)
  {
    if chunks != [] {
      ChosenFirst(chunks[1..], chosen);
      assert chunks == [chunks[0]] + chunks[1..];
    }
  }

  /** With the chunks beyond the start first, they all have to wait at once. */
  lemma ManyAreRefused(chunks: seq<Chunk>) returns (a: seq<Chunk>)
    requires |Offsets(chunks)| > MAX_CRYPTO_FRAGMENTS
    ensures Reorders(a, chunks) && InsertAll(EMPTY, a).Failure?
  {
    hide InsertAll, Settled;
    var isBeyond := (c: Chunk) => c.offset > 0;
    var beyond, others := Chosen(chunks, isBeyond, true), Chosen(chunks, isBeyond, false);
    ChosenFirst(chunks, isBeyond);
    a := beyond + others;
    if InsertAll(EMPTY, beyond).Success? {
      var st := InsertAll(EMPTY, beyond).value;
      Settles(beyond);
      BoundedStart(beyond);
      StrandedWait(st, beyond);
      assert !Covered(beyond, 0);
      assert forall o <- Offsets(chunks) :: o in Stranded(beyond) by {
        forall c | c in chunks && c.data != [] && c.offset > 0 ensures c.offset in Stranded(beyond) {
          assert c in beyond;
        }
      }
      SubsetFits(Offsets(chunks), Stranded(beyond));
      assert false;
    }
    InsertAllConcat(EMPTY, beyond, others);
  }

  ghost predicate Sorted(chunks: seq<Chunk>) {
    forall i, j | 0 <= i < j < |chunks| :: chunks[i].offset <= chunks[j].offset
  }

  lemma {:induction false} SortOne(sorted: seq<Chunk>, c: Chunk) returns (r: seq<Chunk>)
    requires Sorted(sorted)
    ensures Sorted(r) && multiset(r) == multiset(sorted) + multiset{c}
    ensures forall d <- r :: d == c || d in sorted
  {
    if sorted == [] {
      r := [c];
    } else {
      FirstIsLeast(sorted);
      hide Sorted;
      var first, others := sorted[0], sorted[1..];
      assert sorted == [first] + others;
      if c.offset <= first.offset {
        r := [c] + sorted;
        LeastFirst(c, sorted);
      } else {
        var rest := SortOne(others, c);
        r := [first] + rest;
        LeastFirst(first, rest);
      }
    }
  }

  lemma FirstIsLeast(sorted: seq<Chunk>)
    requires Sorted(sorted) && sorted != []
    ensures Sorted(sorted[1..]) && forall d <- sorted :: sorted[0].offset <= d.offset
  {
  }

  lemma LeastFirst(first: Chunk, rest: seq<Chunk>)
    requires Sorted(rest) && forall d <- rest :: first.offset <= d.offset
    ensures Sorted([first] + rest)
  {
  }

  lemma {:induction false} Sort(chunks: seq<Chunk>) returns (r: seq<Chunk>)
    ensures Sorted(r) && Reorders(r, chunks)
  {
    if chunks == [] {
      r := [];
    } else {
      var rest := Sort(chunks[1..]);
      r := SortOne(rest, chunks[0]);
      assert chunks == [chunks[0]] + chunks[1..];
    }
  }

  /** In order of offsets only stranded chunks ever wait. */
  lemma {:induction false} SortedFit(st: State, seen: seq<Chunk>, rest: seq<Chunk>)
    requires Settled(st, seen) && Sorted(seen + rest)
    requires st.fragments.Keys <= Stranded(seen + rest) && |Stranded(seen + rest)| <= MAX_CRYPTO_FRAGMENTS
    ensures InsertAll(st, rest).Success?
    decreases |rest|
  {
    hide Settled, Insert, Stranded;
    if rest != [] {
      var c, all := rest[0], seen + rest;
      if c.data != [] && c.offset > |st.bytes| {
        WaitsStranded(st, seen, rest);
      }
      InsertFits(st, c, Stranded(all));
      InsertSettles(st, seen, c);
      assert seen + [c] + rest[1..] == all;
      SortedFit(Insert(st, c).value, seen + [c], rest[1..]);
    }
  }

  lemma WaitsStranded(st: State, seen: seq<Chunk>, rest: seq<Chunk>)
    requires Settled(st, seen) && Sorted(seen + rest) && rest != []
    requires rest[0].data != [] && rest[0].offset > |st.bytes|
    ensures rest[0].offset in Stranded(seen + rest)
  {
    hide LongestBeyond, Supplied, Whole;
    var all := seen + rest;
    assert all[|seen|] == rest[0];
    forall d | d in rest ensures d.offset >= rest[0].offset {
      var i :| 0 <= i < |rest| && rest[i] == d;
      assert all[|seen| + i] == d;
    }
    assert !Covered(all, |st.bytes|);
    assert Cut(all, rest[0].offset);
  }

  lemma SortedSucceeds(chunks: seq<Chunk>) returns (a: seq<Chunk>)
    requires |Stranded(chunks)| <= MAX_CRYPTO_FRAGMENTS
    ensures Reorders(a, chunks) && InsertAll(EMPTY, a).Success?
  {
    a := Sort(chunks);
    ReorderingsAreSame(a, chunks);
    StrandedOfSame(a, chunks);
    assert [] + a == a;
    SortedFit(EMPTY, [], a);
  }

  lemma StrandedOfSame(a: seq<Chunk>, b: seq<Chunk>)
    requires SameChunks(a, b)
    ensures Stranded(a) == Stranded(b) && Offsets(a) == Offsets(b)
  {
    assert forall p: nat :: Covered(a, p) <==> Covered(b, p);
  }

  /** One of the chunks in front of the others. */
  lemma InFront(chunks: seq<Chunk>, c: Chunk) returns (rest: seq<Chunk>)
    requires c in chunks
    ensures multiset([c] + rest) == multiset(chunks)
  {
    var i :| 0 <= i < |chunks| && chunks[i] == c;
    rest := chunks[..i] + chunks[i + 1..];
    assert chunks == chunks[..i] + [c] + chunks[i + 1..];
  }

  /** A chunk that can supply a byte does so when those that end by the byte come before it and all others after. */
  lemma SupplierFirst(chunks: seq<Chunk>, c: Chunk, q: nat) returns (a: seq<Chunk>)
    requires Supplies(chunks, c, q)
    ensures Reorders(a, chunks)
    ensures InsertAll(EMPTY, a).Success? ==> var bytes := InsertAll(EMPTY, a).value.bytes;
                                             q < |bytes| && bytes[q] == c.data[q - c.offset]
  {
    hide InsertAll, Settled, Insert;
    var ends := (d: Chunk) => End(d) <= q;
    var ending, others := Chosen(chunks, ends, true), Chosen(chunks, ends, false);
    ChosenFirst(chunks, ends);
    var rest := InFront(others, c);
    a := ending + ([c] + rest);
    InsertAllConcat(EMPTY, ending, [c] + rest);
    InsertAllConcat(EMPTY, ending + [c], rest);
    assert ending + [c] + rest == a;
    if InsertAll(EMPTY, a).Success? {
      InsertAllConcat(EMPTY, ending, [c]);
      var st := InsertAll(EMPTY, ending).value;
      Settles(ending);
      EndingReach(st, chunks, ending, c, q);
      InsertsByte(st, c, q);
      InsertOne(st, c);
    }
  }

  lemma InsertOne(st: State, c: Chunk)
    ensures InsertAll(st, [c]) == Insert(st, c)
  {
    hide Insert;
    assert [c][1..] == [];
  }

  /** The chunks that end by a byte reach up to its supplier, and not to the byte. */
  lemma EndingReach(st: State, chunks: seq<Chunk>, ending: seq<Chunk>, c: Chunk, q: nat)
    requires Settled(st, ending) && Supplies(chunks, c, q)
    requires forall d :: d in ending <==> d in chunks && End(d) <= q
    ensures c.offset <= |st.bytes| <= q
  {
    hide LongestBeyond, Supplied;
    var n: nat := |st.bytes|;
    assert n < c.offset ==> CoveredBy(chunks, n, q) && Covered(ending, n);
    assert q < n ==> CoveredBy(ending, q, n);
  }

  lemma InsertsByte(st: State, c: Chunk, q: nat)
    requires c.offset <= |st.bytes| <= q && Covers(c, q)
    ensures Insert(st, c).Success? && q < |Insert(st, c).value.bytes|
    ensures Insert(st, c).value.bytes[q] == c.data[q - c.offset]
  {
    var r := Append(st.bytes, c.offset, c.data);
    assert r[q] == c.data[q - c.offset];
  }

  lemma {:induction false} DrainSpares(st: State, o: nat)
    requires o in st.fragments && o > |Drain(st).bytes|
    ensures o in Drain(st).fragments && Drain(st).fragments[o] == st.fragments[o]
    decreases |st.fragments|
  {
    if st.fragments != map[] && FirstKey(st.fragments) <= |st.bytes| {
      var k := FirstKey(st.fragments);
      DrainSpares(State(Append(st.bytes, k, st.fragments[k]), st.fragments - {k}), o);
    }
  }

  /** What waits stays while the bytes do not reach it and nothing longer comes. */
  lemma {:induction false} WaitsOn(st: State, rest: seq<Chunk>, c: Chunk)
    requires c.offset in st.fragments && st.fragments[c.offset] == c.data
    requires forall d <- rest :: d.offset == c.offset ==> |d.data| <= |c.data|
    requires InsertAll(st, rest).Success? && c.offset > |InsertAll(st, rest).value.bytes|
    ensures var end := InsertAll(st, rest).value; c.offset in end.fragments && end.fragments[c.offset] == c.data
    decreases |rest|
  {
    hide Drain, Append;
    if rest != [] {
      var d := rest[0];
      if d.data != [] && d.offset <= |st.bytes| {
        DrainSpares(st.(bytes := Append(st.bytes, d.offset, d.data)), c.offset);
      }
      WaitsOn(Insert(st, d).value, rest[1..], c);
    }
  }

  /** A longest stranded chunk is the one kept at its offset when it comes first. */
  lemma LongestFirst(chunks: seq<Chunk>, c: Chunk) returns (a: seq<Chunk>)
    requires Longest(chunks, c)
    ensures Reorders(a, chunks)
    ensures InsertAll(EMPTY, a).Success? ==> var fragments := InsertAll(EMPTY, a).value.fragments;
                                             c.offset in fragments && fragments[c.offset] == c.data
  {
    hide InsertAll, Settled, Insert;
    var rest := InFront(chunks, c);
    a := [c] + rest;
    if InsertAll(EMPTY, a).Success? {
      InsertAllConcat(EMPTY, [c], rest);
      InsertOne(EMPTY, c);
      ReorderingsAreSame(a, chunks);
      Settles(a);
      CutOfSame(a, chunks, c.offset);
      CutIsBeyond(InsertAll(EMPTY, a).value, a, c.offset);
      FirstWaits(c);
      assert forall d <- rest :: d in a;
      WaitsOn(Insert(EMPTY, c).value, rest, c);
    }
  }

  lemma FirstWaits(c: Chunk)
    requires c.data != [] && c.offset > 0
    ensures Insert(EMPTY, c) == Success(State([], map[c.offset := c.data]))
  {
  }

  lemma CutOfSame(a: seq<Chunk>, b: seq<Chunk>, offset: nat)
    requires SameChunks(a, b)
    ensures Cut(a, offset) <==> Cut(b, offset)
  {
    assert forall p: nat :: Covered(a, p) <==> Covered(b, p);
  }

  // ----- consistency decides

  lemma SuppliersOfSame(a: seq<Chunk>, b: seq<Chunk>, c: Chunk, q: nat)
    requires SameChunks(a, b) && Supplies(a, c, q)
    ensures Supplies(b, c, q)
  {
    forall p: nat | p < c.offset ensures CoveredBy(b, p, q) {
      assert CoveredBy(a, p, q);
    }
  }

  lemma SettledLength(a: State, b: State, as_: seq<Chunk>, bs: seq<Chunk>)
    requires Settled(a, as_) && Settled(b, bs) && SameChunks(as_, bs)
    ensures |a.bytes| == |b.bytes|
  {
    hide Settled;
    CutIsBeyond(a, as_, |a.bytes| + 1);
    CutIsBeyond(b, bs, |b.bytes| + 1);
    CutOfSame(as_, bs, |a.bytes| + 1);
    CutOfSame(as_, bs, |b.bytes| + 1);
    CutIsBeyond(b, bs, |a.bytes| + 1);
    CutIsBeyond(a, as_, |b.bytes| + 1);
  }

  lemma SettledBytes(a: State, b: State, as_: seq<Chunk>, bs: seq<Chunk>)
    requires Settled(a, as_) && Settled(b, bs) && SameChunks(as_, bs) && Consistent(as_)
    ensures a.bytes == b.bytes
  {
    hide LongestBeyond, Supplies, Longest;
    SettledLength(a, b, as_, bs);
    forall q: nat | q < |a.bytes| ensures a.bytes[q] == b.bytes[q] {
      assert Given(as_, q, a.bytes[q]) && Given(bs, q, b.bytes[q]);
      var c :| Gives(as_, c, q, a.bytes[q]);
      var d :| Gives(bs, d, q, b.bytes[q]);
      SuppliersOfSame(bs, as_, d, q);
    }
  }

  /** A fragment is a longest stranded chunk. */
  lemma FragmentIsLongest(st: State, chunks: seq<Chunk>, o: nat)
    requires Settled(st, chunks) && o in st.fragments
    ensures Longest(chunks, Chunk(o, st.fragments[o]))
  {
    CutIsBeyond(st, chunks, o);
  }

  lemma LongestOfSame(a: seq<Chunk>, b: seq<Chunk>, c: Chunk)
    requires SameChunks(a, b) && Longest(a, c)
    ensures Longest(b, c)
  {
    CutOfSame(a, b, c.offset);
  }

  lemma SettledUnique(a: State, b: State, as_: seq<Chunk>, bs: seq<Chunk>)
    requires Settled(a, as_) && Settled(b, bs) && SameChunks(as_, bs) && Consistent(as_)
    ensures a == b
  {
    hide Longest, Cut, Supplied, Whole, Supplies;
    SettledBytes(a, b, as_, bs);
    forall o | o in a.fragments || o in b.fragments
      ensures o in a.fragments && o in b.fragments && a.fragments[o] == b.fragments[o]
    {
      if o in a.fragments {
        FragmentIsLongest(a, as_, o);
        assert Chunk(o, a.fragments[o]) in bs;
      }
      if o in b.fragments {
        FragmentIsLongest(b, bs, o);
        LongestOfSame(bs, as_, Chunk(o, b.fragments[o]));
        assert Chunk(o, b.fragments[o]) in as_;
      }
    }
    assert a.fragments.Keys == b.fragments.Keys;
  }

  /** Consistent chunks end in one state, in every order that is not refused, repeated or not. */
  lemma ConsistentIsOrderFree(as_: seq<Chunk>, bs: seq<Chunk>)
    requires SameChunks(as_, bs) && Consistent(as_)
    requires InsertAll(EMPTY, as_).Success? && InsertAll(EMPTY, bs).Success?
    ensures InsertAll(EMPTY, as_) == InsertAll(EMPTY, bs)
  {
    hide InsertAll, Settled, Consistent;
    Settles(as_);
    Settles(bs);
    SettledUnique(InsertAll(EMPTY, as_).value, InsertAll(EMPTY, bs).value, as_, bs);
  }

  /** Inconsistent chunks do not. */
  lemma InconsistentIsNot(chunks: seq<Chunk>) returns (a: seq<Chunk>, b: seq<Chunk>)
    requires !Consistent(chunks)
    ensures Reorders(a, chunks) && Reorders(b, chunks)
    ensures InsertAll(EMPTY, a).Success? && InsertAll(EMPTY, b).Success? ==> InsertAll(EMPTY, a) != InsertAll(EMPTY, b)
  {
    hide InsertAll, CoveredBy, Longest, Reorders;
    if q: nat, c, d :| Supplies(chunks, c, q) && Supplies(chunks, d, q) && c.data[q - c.offset] != d.data[q - d.offset] {
      a := SupplierFirst(chunks, c, q);
      b := SupplierFirst(chunks, d, q);
    } else {
      var c, d :| Longest(chunks, c) && Longest(chunks, d) && c.offset == d.offset && c != d;
      a := LongestFirst(chunks, c);
      b := LongestFirst(chunks, d);
    }
  }

  // ----- the three theorems

  /** No order is refused exactly when the chunks beyond the start have at most 128 offsets. */
  lemma NeverRefused(chunks: seq<Chunk>)
    ensures (forall a | Reorders(a, chunks) :: InsertAll(EMPTY, a).Success?) <==> |Offsets(chunks)| <= 128
  {
    hide InsertAll, Offsets, Reorders;
    if |Offsets(chunks)| <= MAX_CRYPTO_FRAGMENTS {
      forall a | Reorders(a, chunks) ensures InsertAll(EMPTY, a).Success? {
        ReorderingsAreSame(a, chunks);
        FewOffsetsFit(chunks, a);
      }
    } else {
      var a := ManyAreRefused(chunks);
    }
  }

  /** Every order is refused exactly when the stranded chunks have more. */
  lemma AlwaysRefused(chunks: seq<Chunk>)
    ensures (forall a | Reorders(a, chunks) :: InsertAll(EMPTY, a).Failure?) <==> |Stranded(chunks)| > 128
  {
    hide InsertAll, Stranded, Reorders, Settled, Bounded;
    if |Stranded(chunks)| <= MAX_CRYPTO_FRAGMENTS {
      var a := SortedSucceeds(chunks);
    } else {
      forall a | Reorders(a, chunks) ensures InsertAll(EMPTY, a).Failure? {
        if InsertAll(EMPTY, a).Success? {
          ReorderingsAreSame(a, chunks);
          StrandedOfSame(a, chunks);
          Settles(a);
          BoundedStart(a);
          StrandedWait(InsertAll(EMPTY, a).value, a);
        }
      }
    }
  }

  /**
   The order does not matter exactly when every order is refused, or none is and the chunks are
   consistent.
   */
  lemma OrderFreeExactly(chunks: seq<Chunk>)
    ensures OrderFree(chunks) <==>
            |Stranded(chunks)| > 128 || (|Offsets(chunks)| <= 128 && Consistent(chunks))
  {
    hide InsertAll, Stranded, Offsets, Reorders, Consistent;
    NeverRefused(chunks);
    AlwaysRefused(chunks);
    if |Stranded(chunks)| > MAX_CRYPTO_FRAGMENTS {
      forall a, b | Reorders(a, chunks) && Reorders(b, chunks) ensures InsertAll(EMPTY, a) == InsertAll(EMPTY, b) {
        OneRefusal(a, b);
      }
    } else {
      if |Offsets(chunks)| > MAX_CRYPTO_FRAGMENTS {
        var a := ManyAreRefused(chunks);
        var b := SortedSucceeds(chunks);
      } else if !Consistent(chunks) {
        var a, b := InconsistentIsNot(chunks);
      } else {
        forall a, b | Reorders(a, chunks) && Reorders(b, chunks) ensures InsertAll(EMPTY, a) == InsertAll(EMPTY, b) {
          ReorderingsAreSame(a, chunks);
          ReorderingsAreSame(b, chunks);
          ConsistentOfSame(chunks, a);
          ConsistentIsOrderFree(a, b);
        }
      }
    }
  }

  lemma OneRefusal(a: seq<Chunk>, b: seq<Chunk>)
    requires InsertAll(EMPTY, a).Failure? && InsertAll(EMPTY, b).Failure?
    ensures InsertAll(EMPTY, a) == InsertAll(EMPTY, b)
  {
    hide InsertAll;
    assert InsertAll(EMPTY, a).error.TooManyFragments? && InsertAll(EMPTY, b).error.TooManyFragments?;
  }

  lemma ConsistentOfSame(chunks: seq<Chunk>, a: seq<Chunk>)
    requires SameChunks(a, chunks) && Consistent(chunks)
    ensures Consistent(a)
  {
    hide Supplies, Longest;
    forall q: nat, c | Supplies(a, c, q) ensures Supplies(chunks, c, q) {
      SuppliersOfSame(a, chunks, c, q);
    }
    forall c | Longest(a, c) ensures Longest(chunks, c) {
      LongestOfSame(a, chunks, c);
    }
  }

  // ----- chunks of one stream

  lemma OneStreamIsConsistent(stream: seq<byte>, chunks: seq<Chunk>)
    requires AllAgree(chunks, stream)
    ensures Consistent(chunks)
  {
    forall c, q: nat | Supplies(chunks, c, q) ensures q < |stream| && c.data[q - c.offset] == stream[q] {
      assert Agrees(c, stream) && c.data == stream[c.offset..End(c)];
    }
    forall c, d | Longest(chunks, c) && Longest(chunks, d) && c.offset == d.offset ensures c == d {
      assert Agrees(c, stream) && Agrees(d, stream) && |c.data| == |d.data|;
    }
  }

  /** Confluence: chunks of one stream, at no more than 128 offsets, end in one state in any order, repeated or not. */
  lemma Confluence(stream: seq<byte>, as_: seq<Chunk>, bs: seq<Chunk>)
    requires AllAgree(as_, stream) && SameChunks(as_, bs)
    ensures |Offsets(as_)| <= MAX_CRYPTO_FRAGMENTS ==> InsertAll(EMPTY, as_).Success? && InsertAll(EMPTY, bs).Success?
    ensures InsertAll(EMPTY, as_).Success? && InsertAll(EMPTY, bs).Success? ==> InsertAll(EMPTY, as_) == InsertAll(EMPTY, bs)
  {
    hide InsertAll, Offsets, Consistent, AllAgree;
    OneStreamIsConsistent(stream, as_);
    if |Offsets(as_)| <= MAX_CRYPTO_FRAGMENTS {
      FewOffsetsFit(as_, as_);
      FewOffsetsFit(as_, bs);
    }
    if InsertAll(EMPTY, as_).Success? && InsertAll(EMPTY, bs).Success? {
      ConsistentIsOrderFree(as_, bs);
    }
  }

  /** Two chunks that differ where both can supply a byte: the first wins, and so the order shows. */
  lemma ContradictionsShowOrder(x: byte, y: byte)
    requires x != y
    ensures var a, b := Chunk(0, [x]), Chunk(0, [y]);
            InsertAll(EMPTY, [a, b]) == Success(State([x], map[])) && InsertAll(EMPTY, [b, a]) == Success(State([y], map[]))
  {
    FirstWins(x, y);
    FirstWins(y, x);
  }

  lemma FirstWins(x: byte, y: byte)
    ensures InsertAll(EMPTY, [Chunk(0, [x]), Chunk(0, [y])]) == Success(State([x], map[]))
  {
    var a, b := Chunk(0, [x]), Chunk(0, [y]);
    var one := State([x], map[]);
    assert Append([], 0, [x]) == [x] && Append([x], 0, [y]) == [x];
    assert Insert(EMPTY, a) == Success(one) && Insert(one, b) == Success(one);
    assert [a, b][1..] == [b] && [b][1..] == [];
    assert InsertAll(one, [b]) == InsertAll(one, []);
  }

  /** Chunks of no one stream may be consistent all the same, when only one of those that differ can supply the byte. */
  lemma ConsistentWithoutStream(x: byte, y: byte, z: byte, w: byte)
    requires z != w
    ensures var chunks := [Chunk(0, [x]), Chunk(1, [y, z]), Chunk(2, [w])];
            OrderFree(chunks) && forall stream :: !AllAgree(chunks, stream)
  {
    var a, b, c := Chunk(0, [x]), Chunk(1, [y, z]), Chunk(2, [w]);
    var chunks := [a, b, c];
    assert a in chunks && b in chunks && c in chunks;
    forall stream ensures !AllAgree(chunks, stream) {
      assert Agrees(b, stream) ==> stream[2] == stream[1..3][1];
      assert Agrees(c, stream) ==> stream[2] == stream[2..3][0];
    }
    hide OrderFree;
    ThreeAreConsistent(chunks, a, b, c);
    OrderFreeExactly(chunks);
  }

  lemma ThreeAreConsistent(chunks: seq<Chunk>, a: Chunk, b: Chunk, c: Chunk)
    requires chunks == [a, b, c] && a.offset == 0 && |a.data| == 1 && b.offset == 1 && |b.data| == 2
    requires c.offset == 2 && |c.data| == 1
    ensures Consistent(chunks) && |Offsets(chunks)| <= MAX_CRYPTO_FRAGMENTS
  {
    assert a in chunks && b in chunks && c in chunks;
    assert Covered(chunks, 0) && Covered(chunks, 1) by {
      assert Covers(a, 0) && Covers(b, 1);
    }
    forall q: nat, d | Supplies(chunks, d, q) ensures d != c || c == b {
      assert d.offset > 1 ==> CoveredBy(chunks, 1, q);
    }
    forall d | d in chunks ensures !Cut(chunks, d.offset) {
    }
    SubsetFits(Offsets(chunks), {1, 2});
  }
}
