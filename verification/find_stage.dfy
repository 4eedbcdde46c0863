/** The Find stage (`findProperties`): page through the remote listing and merge
    every listed property into the store by id. */
module FindStage {
  import opened Wrappers
  import opened Store

  /** One element of a listing page: id, name, owner (`customerId`, absent or 0
      when the listing does not give it) and production version number. */
  datatype Listed = Listed(id: string, name: string, customerId: Option<int>, version: int)

  const PAGE_SIZE := 200
  const CEILING := 300

  /** `x.customerId || taskConfig.customerId` */
  function OwnerOf(x: Listed, t: Task): int {
    if x.customerId.Some? && x.customerId.value != 0 then x.customerId.value else t.customerId
  }

  function Ids(rs: seq<Record>): set<string> {
    set i | 0 <= i < |rs| :: rs[i].id
  }

  function ListedIds(xs: seq<Listed>): set<string> {
    set i | 0 <= i < |xs| :: xs[i].id
  }

  lemma IdsAppend(rs: seq<Record>, p: Record)
    ensures Ids(rs + [p]) == Ids(rs) + {p.id}
  {
    var rs' := rs + [p];
    forall x | x in Ids(rs) ensures x in Ids(rs') {
      var i :| 0 <= i < |rs| && rs[i].id == x;
      assert rs'[i].id == x;
    }
    assert rs'[|rs|].id == p.id;
  }

  lemma ListedIdsCons(xs: seq<Listed>)
    requires |xs| > 0
    ensures ListedIds(xs) == {xs[0].id} + ListedIds(xs[1..])
  {
    forall y | y in ListedIds(xs) ensures y in {xs[0].id} + ListedIds(xs[1..]) {
      var i :| 0 <= i < |xs| && xs[i].id == y;
      if i > 0 { assert xs[1..][i - 1].id == y; }
    }
    forall y | y in ListedIds(xs[1..]) ensures y in ListedIds(xs) {
      var i :| 0 <= i < |xs[1..]| && xs[1..][i].id == y;
      assert xs[i + 1].id == y;
    }
  }

  /** `properties.find(y => y.id == x.id)`: the first record with that id, or -1. */
  function FindIndex(rs: seq<Record>, id: string): (k: int)
    ensures -1 <= k < |rs|
    ensures k == -1 <==> id !in Ids(rs)
    ensures k >= 0 ==> rs[k].id == id && forall j | 0 <= j < k :: rs[j].id != id
  {
    if |rs| == 0 then -1
    else if rs[0].id == id then 0
    else
      var k := FindIndex(rs[1..], id);
      assert Ids(rs) == {rs[0].id} + Ids(rs[1..]) by {
        forall x | x in Ids(rs) ensures x in {rs[0].id} + Ids(rs[1..]) {
          var i :| 0 <= i < |rs| && rs[i].id == x;
          if i > 0 { assert rs[1..][i - 1].id == x; }
        }
      }
      if k == -1 then -1 else k + 1
  }

  /** How a listed property compares with the stored record of the same id. */
  datatype Drift =
    | Added            // no record had this id: a new one is appended
    | Unchanged        // the production version is the stored one
    | DeployedByMe     // a new production version, the one this pipeline created
    | NotDeployedByMe  // a new production version from somewhere else

  /** The informational classification at batchUpdateProperties.js:147-155. */
  function Classify(p: Record, x: Listed): (d: Drift)
    ensures d != Added
    ensures d == Unchanged <==> p.prodVer == x.version
    ensures d == DeployedByMe <==> p.prodVer != x.version && p.newVer == Some(x.version)
  {
    if p.prodVer == x.version then Unchanged
    else if p.newVer == Some(x.version) then DeployedByMe
    else NotDeployedByMe
  }

  /** Merges one listed property: append a freshly discovered record when its id
      is new, otherwise leave the store exactly as it is. */
  function MergeEntry(rs: seq<Record>, x: Listed, t: Task): (r: (seq<Record>, Drift))
    ensures r.1 == Added <==> x.id !in Ids(rs)
    ensures r.1 == Added ==> r.0 == rs + [Discovered(x.id, x.name, OwnerOf(x, t), x.version)]
    ensures r.1 != Added ==> r.0 == rs && r.1 == Classify(rs[FindIndex(rs, x.id)], x)
  {
    var k := FindIndex(rs, x.id);
    if k == -1 then (rs + [Discovered(x.id, x.name, OwnerOf(x, t), x.version)], Added)
    else (rs, Classify(rs[k], x))
  }

  /** Merges a list of listed properties in order; the count is `newCnt`. */
  function MergeAll(rs: seq<Record>, xs: seq<Listed>, t: Task): (r: (seq<Record>, nat))
    ensures |r.0| == |rs| + r.1 && r.0[..|rs|] == rs
    ensures Ids(r.0) == Ids(rs) + ListedIds(xs)
    decreases |xs|
  {
    if |xs| == 0 then (rs, 0)
    else
      var (rs1, d) := MergeEntry(rs, xs[0], t);
      var (rs2, n) := MergeAll(rs1, xs[1..], t);
      assert Ids(rs1) == Ids(rs) + {xs[0].id} by {
        if d == Added { IdsAppend(rs, rs1[|rs|]); }
      }
      ListedIdsCons(xs);
      assert rs2[..|rs|] == rs by {
        assert rs2[..|rs1|] == rs1;
        assert rs1[..|rs|] == rs;
      }
      (rs2, n + (if d == Added then 1 else 0))
  }

  /** Merging preserves the uniqueness of ids and only ever appends fresh
      records, one per new id, in listing order. */
  lemma {:induction false} MergeAllKeepsIdsUnique(rs: seq<Record>, xs: seq<Listed>, t: Task)
    requires UniqueIds(rs)
    ensures UniqueIds(MergeAll(rs, xs, t).0)
    ensures forall i | |rs| <= i < |MergeAll(rs, xs, t).0| ::
      var p := MergeAll(rs, xs, t).0[i];
      p == Discovered(p.id, p.name, p.cid, p.prodVer) && p.id !in Ids(rs)
    decreases |xs|
  {
    if |xs| > 0 {
      var (rs1, d) := MergeEntry(rs, xs[0], t);
      if d == Added {
        forall i, j | 0 <= i < j < |rs1| ensures rs1[i].id != rs1[j].id {
          if j == |rs| { assert rs1[i].id == rs[i].id; assert rs[i].id in Ids(rs); }
        }
      }
      MergeAllKeepsIdsUnique(rs1, xs[1..], t);
      var r := MergeAll(rs, xs, t).0;
      assert r == MergeAll(rs1, xs[1..], t).0;
      forall i | |rs| <= i < |r| ensures r[i] == Discovered(r[i].id, r[i].name, r[i].cid, r[i].prodVer) && r[i].id !in Ids(rs) {
        if i >= |rs1| {
          assert r[i].id !in Ids(rs1);
          assert Ids(rs) <= Ids(rs1) by { assert rs1[..|rs|] == rs; assert forall k | 0 <= k < |rs| :: rs1[k] == rs[k]; }
        } else {
          assert d == Added && i == |rs|;
          assert r[..|rs1|] == rs1;
          assert r[i] == rs1[i];
        }
      }
    }
  }

  /** Entries whose ids are all stored already change nothing. */
  lemma {:induction false} MergeKnownIsNoOp(rs: seq<Record>, xs: seq<Listed>, t: Task)
    requires forall i | 0 <= i < |xs| :: xs[i].id in Ids(rs)
    ensures MergeAll(rs, xs, t) == (rs, 0)
    decreases |xs|
  {
    if |xs| > 0 {
      MergeKnownIsNoOp(rs, xs[1..], t);
    }
  }

  /** Merging a concatenation is merging the parts one after the other. */
  lemma {:induction false} MergeAllAppend(rs: seq<Record>, a: seq<Listed>, b: seq<Listed>, t: Task)
    ensures MergeAll(rs, a + b, t).0 == MergeAll(MergeAll(rs, a, t).0, b, t).0
    ensures MergeAll(rs, a + b, t).1 == MergeAll(rs, a, t).1 + MergeAll(MergeAll(rs, a, t).0, b, t).1
    decreases |a|
  {
    if |a| == 0 {
      assert a + b == b;
    } else {
      assert (a + b)[1..] == a[1..] + b;
      MergeAllAppend(MergeEntry(rs, a[0], t).0, a[1..], b, t);
    }
  }

  function Min(a: int, b: int): int { if a < b then a else b }

  /** The page the listing returns for `offset` (`limit` is 200). */
  function Page(remote: seq<Listed>, offset: nat): seq<Listed>
    requires offset <= |remote|
  {
    remote[offset..Min(offset + PAGE_SIZE, |remote|)]
  }

  /** The do-while loop of `findProperties`: merge one page, add its length to
      `cnt`, advance the offset by 200, and continue while the offset is below
      the listing's `count`. Yields the store, `newCnt` and `cnt`. */
  function FindLoop(rs: seq<Record>, remote: seq<Listed>, offset: nat, t: Task): (seq<Record>, nat, nat)
    requires offset <= |remote|
    decreases |remote| - offset
  {
    var page := Page(remote, offset);
    var m := MergeAll(rs, page, t);
    if offset + PAGE_SIZE < |remote| then
      var l := FindLoop(m.0, remote, offset + PAGE_SIZE, t);
      (l.0, m.1 + l.1, |page| + l.2)
    else (m.0, m.1, |page|)
  }

  /** Paging covers the listing exactly once: the loop merges every listed
      property in order and counts all of them. */
  lemma {:induction false} FindLoopMergesWholeListing(rs: seq<Record>, remote: seq<Listed>, offset: nat, t: Task)
    requires offset <= |remote|
    ensures FindLoop(rs, remote, offset, t).0 == MergeAll(rs, remote[offset..], t).0
    ensures FindLoop(rs, remote, offset, t).1 == MergeAll(rs, remote[offset..], t).1
    ensures FindLoop(rs, remote, offset, t).2 == |remote| - offset
    decreases |remote| - offset
  {
    var page := Page(remote, offset);
    var m1 := MergeAll(rs, page, t);
    if offset + PAGE_SIZE < |remote| {
      var rest := remote[offset + PAGE_SIZE..];
      assert |page| == PAGE_SIZE;
      assert remote[offset..] == page + rest;
      MergeAllAppend(rs, page, rest, t);
      FindLoopMergesWholeListing(m1.0, remote, offset + PAGE_SIZE, t);
    } else {
      assert page == remote[offset..];
    }
  }

  /** `findProperties` against a listing that stays the same while it is paged
      through. More than 300 listed properties throws, which nothing catches,
      before anything is saved; otherwise the store is written only when a
      property was appended. */
  function Find(loaded: seq<Record>, remote: seq<Listed>, t: Task): (r: StageRun)
    ensures |remote| > CEILING ==> r.ending.Crashed? && r.disk == loaded
    ensures |remote| <= CEILING ==> r.ending == Finished
    ensures r.memory == MergeAll(loaded, remote, t).0
    ensures r.disk == loaded || r.disk == r.memory
    ensures r.disk != loaded ==> |remote| <= CEILING && |r.memory| > |loaded|
    ensures |remote| <= CEILING && |r.memory| > |loaded| ==> r.disk == r.memory
  {
    FindLoopMergesWholeListing(loaded, remote, 0, t);
    var (mem, newCnt, cnt) := FindLoop(loaded, remote, 0, t);
    if cnt > CEILING then StageRun(loaded, mem, Crashed("Too many properties, please set or refine findFilter"))
    else if newCnt > 0 then StageRun(mem, mem, Finished)
    else StageRun(loaded, mem, Finished)
  }

  /** A Find against a listing whose ids are all in the store leaves the store
      file as it was; in particular running Find twice over the same listing
      writes nothing the second time. */
  lemma FindIsIdempotent(loaded: seq<Record>, remote: seq<Listed>, t: Task)
    requires |remote| <= CEILING
    ensures var r1 := Find(loaded, remote, t);
      var r2 := Find(r1.disk, remote, t);
      r2.disk == r1.disk && r2.memory == r1.disk
  {
    var r1 := Find(loaded, remote, t);
    MergeKnownIsNoOp(r1.memory, remote, t);
  }

  /** Records already in the store survive Find unchanged, in place, and ids stay
      unique; every listed id ends up in the store. */
  lemma FindPreservesStore(loaded: seq<Record>, remote: seq<Listed>, t: Task)
    requires UniqueIds(loaded)
    ensures var r := Find(loaded, remote, t);
      && r.memory[..|loaded|] == loaded
      && UniqueIds(r.memory)
      && forall i | 0 <= i < |remote| :: remote[i].id in Ids(r.memory)
  {
    MergeAllKeepsIdsUnique(loaded, remote, t);
    var r := Find(loaded, remote, t);
    forall i | 0 <= i < |remote| ensures remote[i].id in Ids(r.memory) {
      assert remote[i].id in ListedIds(remote);
    }
  }
}
