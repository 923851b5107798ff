/**
 The host-side index of simulator memory: `aeg_ipc_alloc_gm_host`, `aeg_ipc_free_gm_host` and
 `aeg_ipc_dev_addr`. Each live host block stands for a block of device memory; an address
 anywhere in a host block translates to the same offset in its device block.

 The ordered map from host addresses is the sequence of its entries in order. What `malloc`
 and the simulator answer comes in as parameters, with their promise that a new block overlaps
 no live one.
 */
module AddressIndex {

  datatype Region = Region(host: nat, dev: nat, size: nat)

  predicate Contains(r: Region, a: nat) {
    r.host <= a < r.host + r.size
  }

  /** Different host blocks; an empty one is not inside another. */
  predicate HostApart(r: Region, q: Region) {
    r.host != q.host && !Contains(r, q.host) && !Contains(q, r.host)
  }

  predicate DevApart(r: Region, q: Region) {
    r.dev != q.dev && (r.dev + r.size <= q.dev || q.dev + q.size <= r.dev)
  }

  /** Keys in order, and blocks that do not overlap. */
  predicate Before(r: Region, q: Region) {
    r.host < q.host && HostApart(r, q) && DevApart(r, q)
  }

  ghost predicate Indexed(rs: seq<Region>) {
    && (forall i :: 0 <= i < |rs| ==> rs[i].dev > 0)
    && (forall i, j :: 0 <= i < j < |rs| ==> Before(rs[i], rs[j]))
  }

  /** The reference: look at every live region. */
  function Scan(rs: seq<Region>, a: nat): nat {
    if rs == [] then 0
    else if Contains(rs[0], a) then rs[0].dev + (a - rs[0].host)
    else Scan(rs[1..], a)
  }

  /** The position of the first entry whose key is above `a`. */
  function UpperBound(rs: seq<Region>, a: nat): (u: nat)
    ensures u <= |rs|
    ensures forall i :: 0 <= i < u ==> rs[i].host <= a
    ensures u < |rs| ==> rs[u].host > a
  {
    if rs == [] || rs[0].host > a then 0 else 1 + UpperBound(rs[1..], a)
  }

  lemma {:induction false} ScanMisses(rs: seq<Region>, a: nat)
    requires forall i :: 0 <= i < |rs| ==> !Contains(rs[i], a)
    ensures Scan(rs, a) == 0
  {
    if rs != [] {
      ScanMisses(rs[1..], a);
    }
  }

  lemma {:induction false} ScanFinds(rs: seq<Region>, a: nat, i: nat)
    requires i < |rs| && Contains(rs[i], a) && forall j :: 0 <= j < i ==> !Contains(rs[j], a)
    ensures Scan(rs, a) == rs[i].dev + (a - rs[i].host)
  {
    if i > 0 {
      ScanFinds(rs[1..], a, i - 1);
    }
  }

  /** At most one region contains an address, and it is the one before the upper bound. */
  lemma OnlyTheLast(rs: seq<Region>, a: nat, i: nat)
    requires Indexed(rs) && i < |rs| && Contains(rs[i], a)
    ensures i == UpperBound(rs, a) - 1
  {
    var u := UpperBound(rs, a);
    assert u < |rs| && u < i ==> Before(rs[u], rs[i]);
    assert i < u - 1 ==> Before(rs[i], rs[u - 1]);
  }

  /** A live region translates every address in it to the same offset of its device block. */
  lemma InRegion(rs: seq<Region>, a: nat, i: nat)
    requires Indexed(rs) && i < |rs| && Contains(rs[i], a)
    ensures Scan(rs, a) == rs[i].dev + (a - rs[i].host) > 0
  {
    forall j | 0 <= j < i
      ensures !Contains(rs[j], a)
    {
      OnlyTheLast(rs, a, i);
      if Contains(rs[j], a) {
        OnlyTheLast(rs, a, j);
      }
    }
    ScanFinds(rs, a, i);
  }

  /** Zero means that no live region has the address. */
  lemma ZeroIff(rs: seq<Region>, a: nat)
    requires Indexed(rs)
    ensures Scan(rs, a) == 0 <==> forall i :: 0 <= i < |rs| ==> !Contains(rs[i], a)
  {
    if i :| 0 <= i < |rs| && Contains(rs[i], a) {
      InRegion(rs, a, i);
    } else {
      ScanMisses(rs, a);
    }
  }

  /** Two addresses never translate to one. */
  lemma TranslationIsInjective(rs: seq<Region>, a: nat, b: nat)
    requires Indexed(rs) && Scan(rs, a) == Scan(rs, b) != 0
    ensures a == b
  {
    ZeroIff(rs, a);
    ZeroIff(rs, b);
    var i :| 0 <= i < |rs| && Contains(rs[i], a);
    var j :| 0 <= j < |rs| && Contains(rs[j], b);
    InRegion(rs, a, i);
    InRegion(rs, b, j);
    if i < j {
      assert Before(rs[i], rs[j]);
    } else if j < i {
      assert Before(rs[j], rs[i]);
    }
  }

  /** Within a block, distances are kept. */
  lemma TranslationKeepsOffsets(rs: seq<Region>, i: nat, a: nat, b: nat)
    requires Indexed(rs) && i < |rs| && Contains(rs[i], a) && Contains(rs[i], b)
    ensures Scan(rs, a) - Scan(rs, b) == a - b
  {
    InRegion(rs, a, i);
    InRegion(rs, b, i);
  }

  ghost function Devs(rs: seq<Region>): set<nat> {
    set r | r in rs :: r.dev
  }

  /** A block that overlaps none of the live ones. */
  ghost predicate IsNew(rs: seq<Region>, r: Region) {
    forall i :: 0 <= i < |rs| ==> HostApart(rs[i], r) && DevApart(rs[i], r)
  }

  function Insert(rs: seq<Region>, r: Region): seq<Region> {
    var u := UpperBound(rs, r.host);
    rs[..u] + [r] + rs[u..]
  }

  function Remove(rs: seq<Region>, i: nat): seq<Region>
    requires i < |rs|
  {
    rs[..i] + rs[i + 1..]
  }

  lemma Placed(rs: seq<Region>, r: Region, i: nat)
    requires Indexed(rs) && IsNew(rs, r) && i < |rs|
    ensures if i < UpperBound(rs, r.host) then Before(rs[i], r) else Before(r, rs[i])
  {
    var u := UpperBound(rs, r.host);
    assert u < i ==> Before(rs[u], rs[i]);
  }

  lemma InsertOrdered(rs: seq<Region>, r: Region, i: nat, j: nat)
    requires Indexed(rs) && IsNew(rs, r) && i < j <= |rs|
    ensures Before(Insert(rs, r)[i], Insert(rs, r)[j])
  {
    var u := UpperBound(rs, r.host);
    if j == u {
      Placed(rs, r, i);
    } else if i == u {
      Placed(rs, r, j - 1);
    } else {
      assert Before(rs[if i < u then i else i - 1], rs[if j < u then j else j - 1]);
    }
  }

  lemma InsertElements(rs: seq<Region>, r: Region, q: Region)
    ensures q in Insert(rs, r) <==> q in rs || q == r
  {
    var u := UpperBound(rs, r.host);
    assert rs == rs[..u] + rs[u..];
  }

  lemma InsertDevs(rs: seq<Region>, r: Region)
    ensures Devs(Insert(rs, r)) == Devs(rs) + {r.dev}
  {
    var s := Insert(rs, r);
    forall d
      ensures d in Devs(s) <==> d in Devs(rs) || d == r.dev
    {
      if d in Devs(s) {
        var q :| q in s && q.dev == d;
        InsertElements(rs, r, q);
      }
      if d in Devs(rs) {
        var q :| q in rs && q.dev == d;
        InsertElements(rs, r, q);
      }
      InsertElements(rs, r, r);
    }
  }

  lemma InsertIndexed(rs: seq<Region>, r: Region)
    requires Indexed(rs) && IsNew(rs, r) && r.dev > 0
    ensures Indexed(Insert(rs, r))
  {
    var s := Insert(rs, r);
    forall i, j | 0 <= i < j < |s|
      ensures Before(s[i], s[j])
    {
      InsertOrdered(rs, r, i, j);
    }
    forall i | 0 <= i < |s|
      ensures s[i].dev > 0
    {
      InsertElements(rs, r, s[i]);
    }
  }

  lemma InsertKeeps(rs: seq<Region>, r: Region)
    requires Indexed(rs) && IsNew(rs, r) && r.dev > 0
    ensures Indexed(Insert(rs, r)) && Devs(Insert(rs, r)) == Devs(rs) + {r.dev}
  {
    InsertIndexed(rs, r);
    InsertDevs(rs, r);
  }

  lemma RemoveKeeps(rs: seq<Region>, i: nat)
    requires Indexed(rs) && i < |rs|
    ensures Indexed(Remove(rs, i)) && Devs(Remove(rs, i)) == Devs(rs) - {rs[i].dev}
  {
    var s := Remove(rs, i);
    assert forall j :: 0 <= j < |s| ==> s[j] == rs[if j < i then j else j + 1];
    assert rs == rs[..i] + [rs[i]] + rs[i + 1..];
    assert forall q :: q in rs <==> q in s || q == rs[i];
    forall q | q in s
      ensures q.dev != rs[i].dev
    {
      var j :| 0 <= j < |s| && s[j] == q;
      var k := if j < i then j else j + 1;
      assert if k < i then Before(rs[k], rs[i]) else Before(rs[i], rs[k]);
    }
  }

  class Index {
    /** The ordered map. */
    var regions: seq<Region>
    /** Device blocks that are allocated on the simulator. */
    var live: set<nat>

    ghost predicate Valid()
      reads this
    {
      Indexed(regions) && live == Devs(regions)
    }

    constructor ()
      ensures Valid() && regions == []
    {
      regions, live := [], {};
    }

    /** `dev` and `host` are the answers of the simulator and of `malloc`, 0 if they fail. A
        device block whose host block cannot be had is given back. */
    method Alloc(size: nat, dev: nat, host: nat) returns (r: nat)
      requires Valid() && dev !in live
      requires dev > 0 && host > 0 ==> IsNew(regions, Region(host, dev, size))
      modifies this
      ensures Valid()
      ensures r == if dev == 0 then 0 else host
      ensures r == 0 ==> regions == old(regions) && live == old(live)
      ensures r != 0 ==> regions == Insert(old(regions), Region(host, dev, size)) && live == old(live) + {dev}
    {
      if dev == 0 {
        return 0;
      }
      live := live + {dev};
      if host == 0 {
        live := live - {dev};
        return 0;
      }
      InsertKeeps(regions, Region(host, dev, size));
      regions := Insert(regions, Region(host, dev, size));
      return host;
    }

    /** A pointer that is not in the map changes nothing here. */
    method Free(host: nat)
      requires Valid()
      modifies this
      ensures Valid()
      ensures (forall i :: 0 <= i < |old(regions)| ==> old(regions)[i].host != host) ==>
                regions == old(regions) && live == old(live)
      ensures forall i :: 0 <= i < |old(regions)| && old(regions)[i].host == host ==>
                regions == Remove(old(regions), i) && live == old(live) - {old(regions)[i].dev}
    {
      var u := UpperBound(regions, host);
      if u > 0 && regions[u - 1].host == host {
        RemoveKeeps(regions, u - 1);
        live := live - {regions[u - 1].dev};
        regions := Remove(regions, u - 1);
      } else {
        assert forall i :: u < i < |regions| ==> Before(regions[u], regions[i]);
        assert forall i :: 0 <= i < u - 1 ==> Before(regions[i], regions[u - 1]);
      }
    }

    /** Upper bound, one step back, and a check: the same as looking at every region. */
    method DevAddr(a: nat) returns (d: nat)
      requires Valid()
      ensures d == Scan(regions, a)
    {
      var it := UpperBound(regions, a);
      forall i | 0 <= i < |regions| && Contains(regions[i], a)
        ensures i == it - 1
      {
        OnlyTheLast(regions, a, i);
      }
      if it == 0 {
        ScanMisses(regions, a);
        return 0;
      }
      it := it - 1;
      var r := regions[it];
      if a < r.host || a >= r.host + r.size {
        ScanMisses(regions, a);
        return 0;
      }
      ScanFinds(regions, a, it);
      return r.dev + (a - r.host);
    }
  }
}
