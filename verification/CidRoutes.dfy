/** The index of connection ids by length, used to route short headers without a scan. */
module CidRoutes {
  import opened Wrappers
  import opened Bytes

  type Cid = seq<byte>

  /** Owner of the longest registered prefix of the bytes that is at most n long. */
  function LongestOwner(owners: map<Cid, nat>, bytes: seq<byte>, n: nat): Option<nat>
    requires n <= |bytes|
  {
    if n == 0 then None
    else if bytes[..n] in owners then Some(owners[bytes[..n]])
    else LongestOwner(owners, bytes, n - 1)
  }

  /** The same by a scan: no registered id that the bytes start with is longer. */
  ghost predicate LongestPrefix(owners: map<Cid, nat>, bytes: seq<byte>, cid: Cid) {
    cid in owners && cid <= bytes && forall other <- owners :: other <= bytes ==> |other| <= |cid|
  }

  lemma {:induction false} LongestOwnerUpTo(owners: map<Cid, nat>, bytes: seq<byte>, n: nat)
    requires [] !in owners && n <= |bytes|
    requires forall cid <- owners :: cid <= bytes ==> |cid| <= n
    ensures var r := LongestOwner(owners, bytes, n);
            (r.None? <==> forall cid <- owners :: !(cid <= bytes)) &&
            forall cid :: LongestPrefix(owners, bytes, cid) ==> r == Some(owners[cid])
  {
    if n > 0 {
      var prefix := bytes[..n];
      if prefix in owners {
        forall cid | LongestPrefix(owners, bytes, cid) ensures cid == prefix {
          assert bytes[..|cid|] == cid;
        }
      } else {
        forall cid | cid in owners && cid <= bytes ensures |cid| <= n - 1 {
          assert bytes[..|cid|] == cid;
        }
        LongestOwnerUpTo(owners, bytes, n - 1);
      }
    } else {
      assert forall cid <- owners :: cid <= bytes ==> cid == [];
    }
  }

  /** The lookup by length gives what a scan for the unique longest registered prefix gives. */
  lemma LongestOwnerIsScan(owners: map<Cid, nat>, bytes: seq<byte>)
    requires [] !in owners
    ensures var r := LongestOwner(owners, bytes, |bytes|);
            (r.None? <==> forall cid <- owners :: !(cid <= bytes)) &&
            forall cid :: LongestPrefix(owners, bytes, cid) ==> r == Some(owners[cid])
  {
    LongestOwnerUpTo(owners, bytes, |bytes|);
  }

  lemma {:induction false} NoneBetween(owners: map<Cid, nat>, bytes: seq<byte>, lo: nat, hi: nat)
    requires lo <= hi <= |bytes|
    requires forall n | lo < n <= hi :: bytes[..n] !in owners
    ensures LongestOwner(owners, bytes, hi) == LongestOwner(owners, bytes, lo)
  {
    if lo < hi {
      NoneBetween(owners, bytes, lo, hi - 1);
    }
  }

  lemma {:induction false} Greatest(keys: set<nat>) returns (k: nat)
    requires keys != {}
    ensures k in keys && forall j <- keys :: j <= k
  {
    var x :| x in keys;
    if keys == {x} {
      k := x;
    } else {
      var rest := keys - {x};
      assert rest != {} && keys == rest + {x};
      k := Greatest(rest);
      if k < x {
        k := x;
      }
    }
  }

  type Buckets = map<nat, map<Cid, nat>>

  function Bucket(buckets: Buckets, n: nat): map<Cid, nat> {
    if n in buckets then buckets[n] else map[]
  }

  /** The id is registered just when it has an owner, under that owner. */
  ghost predicate Agrees(buckets: Buckets, owners: map<Cid, nat>, cid: Cid) {
    (cid in Bucket(buckets, |cid|) <==> cid in owners) &&
    (cid in owners ==> Bucket(buckets, |cid|)[cid] == owners[cid])
  }

  ghost predicate Sized(buckets: Buckets, n: nat) {
    n in buckets ==> buckets[n] != map[] && forall cid <- buckets[n] :: |cid| == n
  }

  /** The buckets hold `owners`, each id under its own length, and no bucket is empty. */
  ghost predicate Holds(buckets: Buckets, owners: map<Cid, nat>) {
    [] !in owners && (forall n :: Sized(buckets, n)) && forall cid :: Agrees(buckets, owners, cid)
  }

  lemma ReplaceBucket(buckets: Buckets, owners: map<Cid, nat>, after: Buckets, owners': map<Cid, nat>, len: nat)
    requires Holds(buckets, owners) && [] !in owners'
    requires forall n | n != len :: (n in after <==> n in buckets) && Bucket(after, n) == Bucket(buckets, n)
    requires Sized(after, len)
    requires forall cid: Cid | |cid| != len :: (cid in owners' <==> cid in owners) && (cid in owners ==> owners'[cid] == owners[cid])
    requires forall cid: Cid | |cid| == len :: Agrees(after, owners', cid)
    ensures Holds(after, owners')
  {
    forall n ensures Sized(after, n) {
      assert Sized(buckets, n);
    }
    forall cid ensures Agrees(after, owners', cid) {
      assert Agrees(buckets, owners, cid);
      if |cid| != len {
        assert Bucket(after, |cid|) == Bucket(buckets, |cid|);
      }
    }
  }

  lemma InsertHolds(buckets: Buckets, owners: map<Cid, nat>, cid: Cid, id: nat)
    requires Holds(buckets, owners) && cid != []
    ensures Holds(buckets[|cid| := Bucket(buckets, |cid|)[cid := id]], owners[cid := id])
  {
    var bucket: map<Cid, nat> := Bucket(buckets, |cid|)[cid := id];
    var after := buckets[|cid| := bucket];
    assert Sized(buckets, |cid|);
    assert cid in bucket;
    forall c: Cid | |c| == |cid| ensures Agrees(after, owners[cid := id], c) {
      assert Agrees(buckets, owners, c);
    }
    ReplaceBucket(buckets, owners, after, owners[cid := id], |cid|);
  }

  function WithoutCid(buckets: Buckets, cid: Cid): Buckets {
    var bucket := Bucket(buckets, |cid|) - {cid};
    if bucket == map[] then buckets - {|cid|} else buckets[|cid| := bucket]
  }

  lemma RemoveHolds(buckets: Buckets, owners: map<Cid, nat>, cid: Cid)
    requires Holds(buckets, owners)
    ensures Holds(WithoutCid(buckets, cid), owners - {cid})
  {
    var bucket := Bucket(buckets, |cid|) - {cid};
    var after := WithoutCid(buckets, cid);
    assert Sized(buckets, |cid|);
    assert Bucket(after, |cid|) == bucket;
    forall c: Cid | |c| == |cid| ensures Agrees(after, owners - {cid}, c) {
      assert Agrees(buckets, owners, c);
    }
    ReplaceBucket(buckets, owners, after, owners - {cid}, |cid|);
  }

  lemma AgreesAt(buckets: Buckets, owners: map<Cid, nat>, cid: Cid)
    requires Holds(buckets, owners)
    ensures Agrees(buckets, owners, cid) && [] !in owners
  {
  }

  class Index {
    var byLength: Buckets
    ghost var owners: map<Cid, nat>

    ghost predicate Valid()
      reads this
    {
      Holds(byLength, owners)
    }

    constructor ()
      ensures Valid() && owners == map[]
    {
      byLength := map[];
      owners := map[];
    }

    /** Registers an id unless it has another owner already: the first owner keeps it. */
    method Insert(cid: Cid, id: nat) returns (ok: bool)
      requires Valid()
      modifies this
      ensures Valid()
      ensures ok <==> cid != [] && (cid in old(owners) ==> old(owners)[cid] == id)
      ensures owners == if cid == [] || cid in old(owners) then old(owners) else old(owners)[cid := id]
    {
      hide Holds;
      if cid == [] {
        return false;
      }
      AgreesAt(byLength, owners, cid);
      var bucket: map<Cid, nat> := Bucket(byLength, |cid|);
      if cid in bucket {
        return bucket[cid] == id;
      }
      InsertHolds(byLength, owners, cid, id);
      byLength := byLength[|cid| := bucket[cid := id]];
      owners := owners[cid := id];
      return true;
    }

    method Get(cid: Cid) returns (r: Option<nat>)
      requires Valid()
      ensures r == if cid in owners then Some(owners[cid]) else None
    {
      AgreesAt(byLength, owners, cid);
      if |cid| in byLength && cid in byLength[|cid|] {
        return Some(byLength[|cid|][cid]);
      }
      return None;
    }

    /** Unregisters an id, and drops its bucket when that was the last id in it. */
    method Remove(cid: Cid) returns (r: Option<nat>)
      requires Valid()
      modifies this
      ensures Valid()
      ensures r == if cid in old(owners) then Some(old(owners)[cid]) else None
      ensures owners == old(owners) - {cid}
    {
      hide Holds;
      AgreesAt(byLength, owners, cid);
      RemoveHolds(byLength, owners, cid);
      owners := owners - {cid};
      if |cid| !in byLength {
        assert byLength - {|cid|} == byLength;
        return None;
      }
      var bucket: map<Cid, nat> := byLength[|cid|];
      r := if cid in bucket then Some(bucket[cid]) else None;
      bucket := bucket - {cid};
      if bucket == map[] {
        byLength := byLength - {|cid|};
      } else {
        byLength := byLength[|cid| := bucket];
      }
    }

    /** Tries the registered lengths, longest first. */
    method MatchPrefix(bytes: seq<byte>) returns (r: Option<nat>)
      requires Valid()
      ensures r == LongestOwner(owners, bytes, |bytes|)
    {
      hide LongestOwner, Holds;
      var lengths := set n: nat | n in byLength && n <= |bytes|;
      ghost var bound: nat := |bytes|;
      while lengths != {}
        invariant bound <= |bytes|
        invariant forall n :: n in lengths <==> n in byLength && n <= bound
        invariant LongestOwner(owners, bytes, |bytes|) == LongestOwner(owners, bytes, bound)
        decreases |lengths|
      {
        ghost var greatest := Greatest(lengths);
        var n :| n in lengths && forall j <- lengths :: j <= n;
        Unregistered(byLength, owners, bytes, n, bound);
        NoneBetween(owners, bytes, n, bound);
        OwnerAt(byLength, owners, bytes, n);
        if bytes[..n] in byLength[n] {
          return Some(byLength[n][bytes[..n]]);
        }
        bound := n - 1;
        lengths := lengths - {n};
      }
      Unregistered(byLength, owners, bytes, 0, bound);
      NoneBetween(owners, bytes, 0, bound);
      NoOwner(owners, bytes);
      return None;
    }
  }

  lemma Unregistered(buckets: Buckets, owners: map<Cid, nat>, bytes: seq<byte>, lo: nat, hi: nat)
    requires Holds(buckets, owners) && lo <= hi <= |bytes|
    requires forall n <- buckets :: !(lo < n <= hi)
    ensures forall n | lo < n <= hi :: bytes[..n] !in owners
  {
    forall n | lo < n <= hi ensures bytes[..n] !in owners {
      AgreesAt(buckets, owners, bytes[..n]);
      assert |bytes[..n]| == n;
    }
  }

  lemma OwnerAt(buckets: Buckets, owners: map<Cid, nat>, bytes: seq<byte>, n: nat)
    requires Holds(buckets, owners) && n in buckets && n <= |bytes|
    ensures n > 0
    ensures bytes[..n] in buckets[n] ==> LongestOwner(owners, bytes, n) == Some(buckets[n][bytes[..n]])
    ensures bytes[..n] !in buckets[n] ==> LongestOwner(owners, bytes, n) == LongestOwner(owners, bytes, n - 1)
  {
    assert Sized(buckets, n);
    var cid :| cid in buckets[n];
    AgreesAt(buckets, owners, cid);
    AgreesAt(buckets, owners, bytes[..n]);
    assert |bytes[..n]| == n;
  }

  lemma NoOwner(owners: map<Cid, nat>, bytes: seq<byte>)
    ensures LongestOwner(owners, bytes, 0) == None
  {
  }
}
