/** Properties of the version lineage kept by the metadata layer: the one
    current row per image, what insert, revert and restore do to it, how the
    version index moves, and the ways the source's statements can break the
    invariant (partial failures, a reused token, a token shared by images). */
module Lineage {
  import opened Values
  import opened Seqs
  import opened Metadata

  // ---------------------------------------------------------------- counting

  lemma {:induction false} CountIfPointwise(a: seq<VersionRow>, b: seq<VersionRow>, p: VersionRow -> bool, q: VersionRow -> bool)
    requires |a| == |b|
    requires forall k :: 0 <= k < |a| ==> p(a[k]) == q(b[k])
    ensures CountIf(a, p) == CountIf(b, q)
  {
    if |a| > 0 {
      CountIfPointwise(a[..|a| - 1], b[..|b| - 1], p, q);
    }
  }

  lemma {:induction false} CountIfZero(vs: seq<VersionRow>, p: VersionRow -> bool)
    requires forall k :: 0 <= k < |vs| ==> !p(vs[k])
    ensures CountIf(vs, p) == 0
  {
    if |vs| > 0 {
      CountIfZero(vs[..|vs| - 1], p);
    }
  }

  lemma {:induction false} CountIfPositive(vs: seq<VersionRow>, p: VersionRow -> bool, k: nat)
    requires k < |vs| && p(vs[k])
    ensures CountIf(vs, p) >= 1
  {
    if k < |vs| - 1 {
      CountIfPositive(vs[..|vs| - 1], p, k);
    }
  }

  lemma {:induction false} CountIfOne(vs: seq<VersionRow>, p: VersionRow -> bool, k: nat)
    requires k < |vs| && p(vs[k])
    requires forall j :: 0 <= j < |vs| && j != k ==> !p(vs[j])
    ensures CountIf(vs, p) == 1
  {
    var init := vs[..|vs| - 1];
    if k == |vs| - 1 {
      CountIfZero(init, p);
    } else {
      CountIfOne(init, p, k);
    }
  }

  /** Counting over a disjoint split of the rows. */
  lemma {:induction false} CountIfSplit(vs: seq<VersionRow>, p: VersionRow -> bool, q: VersionRow -> bool, r: VersionRow -> bool)
    requires forall k :: 0 <= k < |vs| ==> p(vs[k]) == (q(vs[k]) || r(vs[k])) && !(q(vs[k]) && r(vs[k]))
    ensures CountIf(vs, p) == CountIf(vs, q) + CountIf(vs, r)
  {
    if |vs| > 0 {
      CountIfSplit(vs[..|vs| - 1], p, q, r);
    }
  }

  /** Versions that differ only in their `current` flags. */
  predicate SameLineage(a: seq<VersionRow>, b: seq<VersionRow>)
  {
    |a| == |b| && forall k :: 0 <= k < |a| ==> a[k].(current := false) == b[k].(current := false)
  }

  lemma SameLineageCounts(a: seq<VersionRow>, b: seq<VersionRow>, id: Uuid, ts: nat)
    requires SameLineage(a, b)
    ensures CountIf(a, OlderThan(id, ts)) == CountIf(b, OlderThan(id, ts))
    ensures VersionCount(a, id) == VersionCount(b, id)
  {
    assert forall k :: 0 <= k < |a| ==> a[k].imageId == b[k].imageId && a[k].ts == b[k].ts by {
      forall k | 0 <= k < |a| ensures a[k].imageId == b[k].imageId && a[k].ts == b[k].ts {
        assert a[k].(current := false) == b[k].(current := false);
      }
    }
    CountIfPointwise(a, b, OlderThan(id, ts), OlderThan(id, ts));
    CountIfPointwise(a, b, OfImage(id), OfImage(id));
  }

  // ---------------------------------------------------------------- moving the pointer

  /** `cur` moved to `to`: the row at `to` becomes current, the row at `from` not. */
  function SwapCurrent(vs: seq<VersionRow>, from: nat, to: nat): seq<VersionRow>
    requires from < |vs| && to < |vs|
  {
    vs[to := vs[to].(current := true)][from := vs[from].(current := false)]
  }

  /** The neighbour found by revert (restore) is adjacent to the current row:
      no row of the image lies strictly between them in time. */
  lemma NeighbourAdjacent(vs: seq<VersionRow>, id: Uuid, cur: VersionRow, dir: Direction)
    requires TokensUnique(vs) && cur in vs
    requires Neighbour(vs, id, cur, dir).Some?
    ensures var p := Neighbour(vs, id, cur, dir).value;
      forall k :: 0 <= k < |vs| && vs[k].imageId == id ==>
        if dir == Back then !(p.ts < vs[k].ts < cur.ts) else !(cur.ts < vs[k].ts < p.ts)
  {
    var p := Neighbour(vs, id, cur, dir).value;
    var c := IndexOf(vs, cur);
    forall k | 0 <= k < |vs| && vs[k].imageId == id
      ensures if dir == Back then !(p.ts < vs[k].ts < cur.ts) else !(cur.ts < vs[k].ts < p.ts)
    {
      if vs[k].version == cur.version {
        assert k == c;
      }
    }
  }

  /** Promoting the neighbour's token and demoting the rest of the image is
      the swap, given one current row per image and unique tokens. */
  lemma PromoteDemoteIsSwap(vs: seq<VersionRow>, id: Uuid, from: nat, to: nat)
    requires AtMostOneCurrent(vs) && TokensUnique(vs)
    requires from < |vs| && to < |vs| && from != to
    requires IsCurrentOf(vs[from], id) && vs[to].imageId == id
    ensures Demote(Promote(vs, vs[to].version), id, vs[to].version) == SwapCurrent(vs, from, to)
  {
    var token := vs[to].version;
    var after := Demote(Promote(vs, token), id, token);
    var swapped := SwapCurrent(vs, from, to);
    forall k | 0 <= k < |vs| ensures after[k] == swapped[k] {
      if k != to {
        assert vs[k].version != token;
      }
      if k != to && k != from && vs[k].imageId == id {
        assert !vs[k].current;
      }
    }
  }

  /** With one current row per image and unique tokens, a successful revert
      (restore) swaps the current flag from the current row to its neighbour
      and changes nothing else. */
  lemma MoveSwapsCurrent(t: Tables, id: Uuid, dir: Direction) returns (from: nat, to: nat)
    requires Schema(t) && OneCurrentPerImage(t.versions) && TokensUnique(t.versions)
    requires CurrentVersion(t.versions, id).Some?
    requires Neighbour(t.versions, id, CurrentVersion(t.versions, id).value, dir).Some?
    ensures from < |t.versions| && to < |t.versions| && from != to
    ensures t.versions[from] == CurrentVersion(t.versions, id).value
    ensures t.versions[to] == Neighbour(t.versions, id, t.versions[from], dir).value
    ensures IsCurrentOf(t.versions[from], id) && t.versions[to].imageId == id && !t.versions[to].current
    ensures MoveStep(t, id, dir, NoFault)
            == Step(t.(versions := SwapCurrent(t.versions, from, to)), Ok(Some(t.versions[to].version)))
  {
    var vs := t.versions;
    var cur := CurrentVersion(vs, id).value;
    var p := Neighbour(vs, id, cur, dir).value;
    from := IndexOf(vs, cur);
    to := IndexOf(vs, p);
    assert from != to by { assert p.version != cur.version; }
    assert !vs[to].current by {
      assert AtMostOneCurrent(vs);
      assert vs[from].current && vs[from].imageId == vs[to].imageId;
    }
    MoveStepOfNeighbour(t, id, dir, p);
    PromoteDemoteIsSwap(vs, id, from, to);
  }

  /** A revert (restore) that finds its neighbour promotes it and demotes the
      image's other rows. */
  lemma MoveStepOfNeighbour(t: Tables, id: Uuid, dir: Direction, p: VersionRow)
    requires CurrentVersion(t.versions, id).Some?
    requires Neighbour(t.versions, id, CurrentVersion(t.versions, id).value, dir) == Some(p)
    ensures MoveStep(t, id, dir, NoFault)
            == Step(t.(versions := Demote(Promote(t.versions, p.version), id, p.version)), Ok(Some(p.version)))
  {
  }

  /** Rows of the same lineage agree on everything but the flag. */
  lemma SameLineageKeys(a: seq<VersionRow>, b: seq<VersionRow>)
    requires SameLineage(a, b)
    ensures forall k :: 0 <= k < |a| ==>
      a[k].ts == b[k].ts && a[k].imageId == b[k].imageId && a[k].version == b[k].version
  {
    forall k | 0 <= k < |a|
      ensures a[k].ts == b[k].ts && a[k].imageId == b[k].imageId && a[k].version == b[k].version
    {
      assert a[k].(current := false) == b[k].(current := false);
    }
  }

  /** Changing flags alone keeps the schema and the token uniqueness. */
  lemma SameLineageKeepsSchema(t: Tables, vs: seq<VersionRow>)
    requires Schema(t) && SameLineage(t.versions, vs)
    ensures Schema(t.(versions := vs))
    ensures TokensUnique(t.versions) ==> TokensUnique(vs)
  {
    SameLineageKeys(t.versions, vs);
  }

  /** After the swap the lineage is the same and the pointer sits on `to`. */
  lemma SwapKeepsInvariant(t: Tables, from: nat, to: nat)
    requires Schema(t) && OneCurrentPerImage(t.versions) && TokensUnique(t.versions)
    requires from < |t.versions| && to < |t.versions| && from != to
    requires t.versions[from].current && !t.versions[to].current
    requires t.versions[from].imageId == t.versions[to].imageId
    ensures var vs := SwapCurrent(t.versions, from, to);
      && Schema(t.(versions := vs)) && OneCurrentPerImage(vs) && TokensUnique(vs)
      && SameLineage(t.versions, vs)
      && CurrentVersion(vs, t.versions[to].imageId) == Some(vs[to])
      && vs[to] == t.versions[to].(current := true)
  {
    var vs := SwapCurrent(t.versions, from, to);
    var id := t.versions[to].imageId;
    assert SameLineage(t.versions, vs);
    SameLineageKeepsSchema(t, vs);
    SameLineageKeys(t.versions, vs);
    SwapOneCurrent(t.versions, from, to);
    var r := CurrentVersion(vs, id).value;
    var m := IndexOf(vs, r);
    assert m == to;
  }

  lemma SwapOneCurrent(vs: seq<VersionRow>, from: nat, to: nat)
    requires OneCurrentPerImage(vs)
    requires from < |vs| && to < |vs| && from != to
    requires vs[from].current && !vs[to].current && vs[from].imageId == vs[to].imageId
    ensures OneCurrentPerImage(SwapCurrent(vs, from, to))
  {
    var id := vs[to].imageId;
    var w := SwapCurrent(vs, from, to);
    forall i, j | 0 <= i < |w| && 0 <= j < |w| && i != j && w[i].current && w[j].current
      ensures w[i].imageId != w[j].imageId
    {
      if i != to && j != to {
        assert vs[i].current && vs[j].current;
      } else if i == to {
        assert vs[j].current && j != from;
      } else {
        assert vs[i].current && i != from;
      }
    }
    forall k | 0 <= k < |w| ensures HasCurrent(w, w[k].imageId) {
      if w[k].imageId == id {
        assert IsCurrentOf(w[to], id);
      } else {
        var j :| 0 <= j < |vs| && IsCurrentOf(vs[j], vs[k].imageId);
        assert j != from && j != to;
        assert IsCurrentOf(w[j], w[k].imageId);
      }
    }
  }

  /** Two rows of an image adjacent in time: the rows older than the later
      one are those older than the earlier one, plus the earlier one. */
  lemma AdjacentCounts(vs: seq<VersionRow>, id: Uuid, e: nat, lateTs: nat)
    requires DistinctBy(vs, VersionTs)
    requires e < |vs| && vs[e].imageId == id && vs[e].ts < lateTs
    requires forall k :: 0 <= k < |vs| && vs[k].imageId == id ==> !(vs[e].ts < vs[k].ts < lateTs)
    ensures CountIf(vs, OlderThan(id, lateTs)) == CountIf(vs, OlderThan(id, vs[e].ts)) + 1
  {
    CountIfSplit(vs, OlderThan(id, lateTs), OlderThan(id, vs[e].ts), StampedAt(id, vs[e].ts));
    CountIfOne(vs, StampedAt(id, vs[e].ts), e);
  }

  /** The swap between adjacent rows shifts the index of the current row by one. */
  lemma SwapShiftsIndex(vs: seq<VersionRow>, id: Uuid, from: nat, to: nat)
    requires DistinctBy(vs, VersionTs)
    requires from < |vs| && to < |vs| && vs[from].imageId == id && vs[to].imageId == id
    requires forall k :: 0 <= k < |vs| && vs[k].imageId == id ==>
      !(vs[to].ts < vs[k].ts < vs[from].ts) && !(vs[from].ts < vs[k].ts < vs[to].ts)
    requires vs[from].ts != vs[to].ts
    ensures var w := SwapCurrent(vs, from, to);
      && VersionCount(w, id) == VersionCount(vs, id)
      && VersionIndex(w, w[to]) == if vs[to].ts < vs[from].ts then VersionIndex(vs, vs[from]) - 1
                                   else VersionIndex(vs, vs[from]) + 1
  {
    var w := SwapCurrent(vs, from, to);
    assert SameLineage(vs, w);
    SameLineageCounts(vs, w, id, vs[to].ts);
    if vs[to].ts < vs[from].ts {
      AdjacentCounts(vs, id, to, vs[from].ts);
    } else {
      AdjacentCounts(vs, id, from, vs[to].ts);
    }
  }

  /** A successful revert moves the pointer one step back, a successful
      restore one step forward: the version index changes by exactly one and
      the count stays. */
  lemma MoveShiftsIndex(t: Tables, id: Uuid, dir: Direction)
    requires Schema(t) && OneCurrentPerImage(t.versions) && TokensUnique(t.versions)
    requires CurrentVersion(t.versions, id).Some?
    requires Neighbour(t.versions, id, CurrentVersion(t.versions, id).value, dir).Some?
    ensures var after := MoveStep(t, id, dir, NoFault).after.versions;
      && CurrentVersion(after, id).Some?
      && VersionCount(after, id) == VersionCount(t.versions, id)
      && VersionIndex(after, CurrentVersion(after, id).value)
         == if dir == Back then VersionIndex(t.versions, CurrentVersion(t.versions, id).value) - 1
            else VersionIndex(t.versions, CurrentVersion(t.versions, id).value) + 1
  {
    var vs := t.versions;
    var from, to := MoveSwapsCurrent(t, id, dir);
    SwapKeepsInvariant(t, from, to);
    NeighbourAdjacent(vs, id, vs[from], dir);
    SwapShiftsIndex(vs, id, from, to);
  }

  /** The forward neighbour of the earlier of two adjacent rows is the later. */
  lemma ForwardOfAdjacent(vs: seq<VersionRow>, id: Uuid, early: nat, late: nat)
    requires DistinctBy(vs, VersionTs)
    requires early < |vs| && late < |vs| && vs[early].imageId == id && vs[late].imageId == id
    requires vs[early].ts < vs[late].ts && vs[early].version != vs[late].version
    requires forall k :: 0 <= k < |vs| && vs[k].imageId == id ==> !(vs[early].ts < vs[k].ts < vs[late].ts)
    ensures Neighbour(vs, id, vs[early], Forward) == Some(vs[late])
  {
    assert Candidate(vs[late], id, vs[early], Forward);
    var n := Neighbour(vs, id, vs[early], Forward).value;
    var m := IndexOf(vs, n);
    assert vs[m].ts == vs[late].ts;
  }

  /** A revert that moved the pointer leaves it one step back. */
  lemma RevertHappened(t: Tables, id: Uuid)
    requires MoveStep(t, id, Back, NoFault).result.Ok?
    requires MoveStep(t, id, Back, NoFault).result.value.Some?
    ensures CurrentVersion(t.versions, id).Some?
    ensures Neighbour(t.versions, id, CurrentVersion(t.versions, id).value, Back).Some?
  {
  }

  /** Revert followed by restore puts the pointer back where it was, and the
      tables are as before. */
  lemma RevertThenRestore(t: Tables, id: Uuid)
    requires Schema(t) && OneCurrentPerImage(t.versions) && TokensUnique(t.versions)
    requires MoveStep(t, id, Back, NoFault).result.Ok?
    requires MoveStep(t, id, Back, NoFault).result.value.Some?
    ensures var t1 := MoveStep(t, id, Back, NoFault).after;
            var s2 := MoveStep(t1, id, Forward, NoFault);
            && s2.after == t
            && s2.result == Ok(Some(CurrentVersion(t.versions, id).value.version))
  {
    RevertHappened(t, id);
    var vs := t.versions;
    var from, to := MoveSwapsCurrent(t, id, Back);
    SwapKeepsInvariant(t, from, to);
    var t1 := t.(versions := SwapCurrent(vs, from, to));
    var vs1 := t1.versions;
    RestoreFindsPrevious(t, id, from, to);
    var from1, to1 := MoveSwapsCurrent(t1, id, Forward);
    assert from1 == to by { assert vs1[from1].ts == vs1[to].ts; }
    assert to1 == from by { assert vs1[to1].ts == vs1[from].ts; }
    SwapBack(vs, from, to);
  }

  /** After a revert swapped the pointer from `from` back to `to`, restore's
      neighbour of the new current row is the row the pointer left. */
  lemma RestoreFindsPrevious(t: Tables, id: Uuid, from: nat, to: nat)
    requires Schema(t) && TokensUnique(t.versions)
    requires from < |t.versions| && to < |t.versions| && from != to
    requires t.versions[from].imageId == id && t.versions[to].imageId == id
    requires Neighbour(t.versions, id, t.versions[from], Back) == Some(t.versions[to])
    ensures var vs1 := SwapCurrent(t.versions, from, to);
      Neighbour(vs1, id, vs1[to], Forward) == Some(vs1[from])
  {
    var vs := t.versions;
    var vs1 := SwapCurrent(vs, from, to);
    NeighbourAdjacent(vs, id, vs[from], Back);
    assert SameLineage(vs, vs1);
    SameLineageKeys(vs, vs1);
    SameLineageKeepsSchema(t, vs1);
    ForwardOfAdjacent(vs1, id, to, from);
  }

  lemma SwapBack(vs: seq<VersionRow>, from: nat, to: nat)
    requires from < |vs| && to < |vs| && from != to
    requires vs[from].current && !vs[to].current
    ensures var w := SwapCurrent(vs, from, to); SwapCurrent(w, to, from) == vs
  {
  }

  /** Revert (restore) with no older (newer) version, no current row, or a
      failing UPDATE changes nothing and reports no version. */
  lemma MoveNoopCases(t: Tables, id: Uuid, dir: Direction, fault: Fault)
    requires !FailsAt(fault, 1)
    requires || CurrentVersion(t.versions, id).None?
             || FailsAt(fault, 2)
             || Neighbour(t.versions, id, CurrentVersion(t.versions, id).value, dir).None?
    ensures MoveStep(t, id, dir, fault) == Step(t, Ok(None))
  {
  }

  lemma MoveIgnoresOtherFaults(t: Tables, id: Uuid, dir: Direction, fault: Fault)
    requires !FailsAt(fault, 1) && !FailsAt(fault, 2) && !FailsAt(fault, 3)
    ensures MoveStep(t, id, dir, fault) == MoveStep(t, id, dir, NoFault)
  {
  }

  /** Revert and restore keep "one current row per image" unless the final
      demotion fails. */
  lemma MoveKeepsInvariant(t: Tables, id: Uuid, dir: Direction, fault: Fault)
    requires Schema(t) && OneCurrentPerImage(t.versions) && TokensUnique(t.versions)
    requires !FailsAt(fault, 3)
    ensures var after := MoveStep(t, id, dir, fault).after.versions;
            OneCurrentPerImage(after) && TokensUnique(after)
  {
    if !FailsAt(fault, 1) && !FailsAt(fault, 2) && CurrentVersion(t.versions, id).Some?
       && Neighbour(t.versions, id, CurrentVersion(t.versions, id).value, dir).Some?
    {
      var from, to := MoveSwapsCurrent(t, id, dir);
      SwapKeepsInvariant(t, from, to);
      MoveIgnoresOtherFaults(t, id, dir, fault);
    } else if !FailsAt(fault, 1) {
      MoveNoopCases(t, id, dir, fault);
    }
  }

  // ---------------------------------------------------------------- the flags of find_image_with_version_info

  lemma CountIfZeroMeansNone(vs: seq<VersionRow>, p: VersionRow -> bool)
    ensures CountIf(vs, p) == 0 <==> forall k :: 0 <= k < |vs| ==> !p(vs[k])
  {
    if CountIf(vs, p) == 0 {
      forall k | 0 <= k < |vs| ensures !p(vs[k]) {
        if p(vs[k]) {
          CountIfPositive(vs, p, k);
        }
      }
    } else if forall k :: 0 <= k < |vs| ==> !p(vs[k]) {
      CountIfZero(vs, p);
    }
  }

  /** The facts reported for a row: its index lies between 1 and the count,
      it is flagged latest exactly when no row of the image is newer, and
      initial exactly when none is older. */
  lemma FactsDescribeLineage(vs: seq<VersionRow>, v: VersionRow)
    requires DistinctBy(vs, VersionTs) && v in vs
    ensures var f := Facts(vs, v);
      && 1 <= f.versionIndex <= VersionCount(vs, v.imageId)
      && (f.latestVersion <==> forall k :: 0 <= k < |vs| && vs[k].imageId == v.imageId ==> vs[k].ts <= v.ts)
      && (f.initialVersion <==> forall k :: 0 <= k < |vs| && vs[k].imageId == v.imageId ==> vs[k].ts >= v.ts)
  {
    var id := v.imageId;
    var e := IndexOf(vs, v);
    var older := CountIf(vs, OlderThan(id, v.ts));
    var newer := CountIf(vs, NewerThan(id, v.ts));
    CountIfSplit(vs, OfImage(id), OlderThan(id, v.ts), (w: VersionRow) => w.imageId == id && w.ts >= v.ts);
    CountIfSplit(vs, (w: VersionRow) => w.imageId == id && w.ts >= v.ts, StampedAt(id, v.ts), NewerThan(id, v.ts));
    CountIfOne(vs, StampedAt(id, v.ts), e);
    assert VersionCount(vs, id) == older + 1 + newer;
    CountIfZeroMeansNone(vs, NewerThan(id, v.ts));
    CountIfZeroMeansNone(vs, OlderThan(id, v.ts));
  }

  /** With unique tokens, restore finds nothing exactly at the latest
      version and revert finds nothing exactly at the initial one. */
  lemma NoNeighbourAtEnds(vs: seq<VersionRow>, v: VersionRow)
    requires DistinctBy(vs, VersionTs) && TokensUnique(vs) && v in vs
    ensures Neighbour(vs, v.imageId, v, Forward).None? <==> Facts(vs, v).latestVersion
    ensures Neighbour(vs, v.imageId, v, Back).None? <==> Facts(vs, v).initialVersion
  {
    FactsDescribeLineage(vs, v);
    var e := IndexOf(vs, v);
    forall k | 0 <= k < |vs| && vs[k].imageId == v.imageId && vs[k].ts != v.ts
      ensures vs[k].version != v.version
    {
    }
  }

  // ---------------------------------------------------------------- inserting a version

  /** `insert_image_version` for an existing image: the new row is current,
      its siblings with another token are not, other images are untouched. */
  lemma InsertVersionEffect(t: Tables, id: Uuid, token: Token, dimensions: (u32, u32), size: u64)
    requires HasImage(t.images, id)
    ensures var s := InsertVersionStep(t, id, token, dimensions, size, NoFault);
            var vs := s.after.versions;
      && s.result == Ok(())
      && |vs| == |t.versions| + 1
      && vs[|t.versions|] == VersionRow(id, token, t.clock, true, AsI32(dimensions.0), AsI32(dimensions.1), AsI64(size))
      && (forall k :: 0 <= k < |t.versions| && t.versions[k].imageId == id && t.versions[k].version != token ==> !vs[k].current)
      && (forall k :: 0 <= k < |t.versions| && t.versions[k].imageId != id ==> vs[k] == t.versions[k])
      && s.after.images == t.images
  {
  }

  /** Appending a current row with a token new to its image and demoting its
      siblings leaves exactly that row current for the image. */
  lemma AppendCurrentKeepsInvariant(vs: seq<VersionRow>, row: VersionRow)
    requires OneCurrentPerImage(vs) && row.current
    requires forall k :: 0 <= k < |vs| && vs[k].imageId == row.imageId ==> vs[k].version != row.version
    ensures var w := Demote(vs + [row], row.imageId, row.version);
      && w[|vs|] == row
      && OneCurrentPerImage(w)
      && CurrentVersion(w, row.imageId) == Some(row)
  {
    var n, id := |vs|, row.imageId;
    var ins := vs + [row];
    var w := Demote(ins, id, row.version);
    assert w[n] == row;
    forall i, j | 0 <= i < |w| && 0 <= j < |w| && i != j && w[i].current && w[j].current
      ensures w[i].imageId != w[j].imageId
    {
      if i < n && j < n {
        assert vs[i].current && vs[j].current;
      }
    }
    forall k | 0 <= k < |w| ensures HasCurrent(w, w[k].imageId) {
      if w[k].imageId == id {
        assert IsCurrentOf(w[n], id);
      } else {
        var j :| 0 <= j < n && IsCurrentOf(vs[j], w[k].imageId);
        assert IsCurrentOf(w[j], w[k].imageId);
      }
    }
    var m := IndexOf(w, CurrentVersion(w, id).value);
    assert m == n;
  }

  /** A row stamped after every other row is the image's latest: one more
      version, and its index is the count. */
  lemma AppendLatestCounts(vs: seq<VersionRow>, row: VersionRow)
    requires forall k :: 0 <= k < |vs| ==> vs[k].ts < row.ts
    ensures var w := Demote(vs + [row], row.imageId, row.version);
      && VersionCount(w, row.imageId) == VersionCount(vs, row.imageId) + 1
      && VersionIndex(w, w[|vs|]) == VersionCount(w, row.imageId)
  {
    var n, id := |vs|, row.imageId;
    var w := Demote(vs + [row], id, row.version);
    var front := Demote(vs, id, row.version);
    assert w[..n] == front;
    assert w[n].imageId == id && w[n].ts == row.ts;
    assert SameLineage(vs, front);
    SameLineageCounts(vs, front, id, row.ts);
    CountIfPointwise(front, front, OlderThan(id, row.ts), OfImage(id));
  }

  /** Inserting a version whose token the image has not used keeps the
      invariant, and the new row is the current one and the latest. */
  lemma InsertVersionKeepsInvariant(t: Tables, id: Uuid, token: Token, dimensions: (u32, u32), size: u64)
    requires Schema(t) && OneCurrentPerImage(t.versions)
    requires HasImage(t.images, id)
    requires forall k :: 0 <= k < |t.versions| && t.versions[k].imageId == id ==> t.versions[k].version != token
    ensures var vs := InsertVersionStep(t, id, token, dimensions, size, NoFault).after.versions;
      && OneCurrentPerImage(vs)
      && CurrentVersion(vs, id) == Some(vs[|vs| - 1])
      && VersionCount(vs, id) == VersionCount(t.versions, id) + 1
      && VersionIndex(vs, vs[|vs| - 1]) == VersionCount(vs, id)
  {
    var row := NewVersionRow(id, token, dimensions, size, t.clock);
    assert InsertVersionStep(t, id, token, dimensions, size, NoFault).after.versions
           == Demote(t.versions + [row], id, token);
    AppendCurrentKeepsInvariant(t.versions, row);
    AppendLatestCounts(t.versions, row);
  }

  /** Inserting a version whose token is new to the whole table keeps the
      tokens unique. */
  lemma InsertVersionKeepsTokensUnique(t: Tables, id: Uuid, token: Token, dimensions: (u32, u32), size: u64, fault: Fault)
    requires TokensUnique(t.versions)
    requires forall k :: 0 <= k < |t.versions| ==> t.versions[k].version != token
    ensures TokensUnique(InsertVersionStep(t, id, token, dimensions, size, fault).after.versions)
  {
    var vs := InsertVersionStep(t, id, token, dimensions, size, fault).after.versions;
    if vs != t.versions {
      var ins := t.versions + [NewVersionRow(id, token, dimensions, size, t.clock)];
      assert forall k :: 0 <= k < |vs| ==> vs[k].version == ins[k].version;
    }
  }

  // ---------------------------------------------------------------- how the invariant breaks

  const Owner: ImageRow := ImageRow("a", "cat.png", Png, "ann", 0)
  const First: VersionRow := VersionRow("a", "v1", 1, true, 1, 1, 1)
  const Start: Tables := Tables([Owner], [First], 2)

  /** If the demotion after an insert fails, the image is left with two
      current rows: the two statements are not one transaction. */
  lemma PartialInsertLeavesTwoCurrent()
    ensures Schema(Start) && OneCurrentPerImage(Start.versions)
    ensures var s := InsertVersionStep(Start, "a", "v2", (1, 1), 1, FailAt(2));
            s.result.Err? && !AtMostOneCurrent(s.after.versions)
  {
    assert HasImage(Start.images, "a") by { assert Start.images[0].id == "a"; }
    var vs := InsertVersionStep(Start, "a", "v2", (1, 1), 1, FailAt(2)).after.versions;
    assert vs == [First, NewVersionRow("a", "v2", (1, 1), 1, 2)];
    assert vs[0].current && vs[1].current && vs[0].imageId == vs[1].imageId;
  }

  /** Demotion spares rows with the inserted token, so inserting a token the
      image already has (the legacy repository's "" for an unversioned bucket)
      leaves two current rows. */
  lemma ReusedTokenLeavesTwoCurrent()
    ensures var s := InsertVersionStep(Start, "a", "v1", (1, 1), 1, NoFault);
            s.result.Ok? && !AtMostOneCurrent(s.after.versions)
  {
    assert HasImage(Start.images, "a") by { assert Start.images[0].id == "a"; }
    var ins := [First, NewVersionRow("a", "v1", (1, 1), 1, 2)];
    var vs := InsertVersionStep(Start, "a", "v1", (1, 1), 1, NoFault).after.versions;
    assert vs == Demote(ins, "a", "v1");
    assert vs[0] == ins[0] && vs[1] == ins[1];
    assert vs[0].current && vs[1].current && vs[0].imageId == vs[1].imageId;
  }

  const Second: VersionRow := VersionRow("a", "v2", 2, true, 1, 1, 1)
  const OlderFirst: VersionRow := VersionRow("a", "v1", 1, false, 1, 1, 1)
  const Twice: Tables := Tables([Owner], [OlderFirst, Second], 3)

  /** If the demotion after a revert fails, both the old and the promoted row
      are current. */
  lemma PartialRevertLeavesTwoCurrent()
    ensures Schema(Twice) && OneCurrentPerImage(Twice.versions)
    ensures var s := MoveStep(Twice, "a", Back, FailAt(3));
            s.result.Err? && !AtMostOneCurrent(s.after.versions)
  {
    assert HasImage(Twice.images, "a") by { assert Twice.images[0].id == "a"; }
    assert CurrentVersion(Twice.versions, "a") == Some(Second);
    assert Neighbour(Twice.versions, "a", Second, Back) == Some(OlderFirst);
    var vs := MoveStep(Twice, "a", Back, FailAt(3)).after.versions;
    assert vs == Promote(Twice.versions, "v1");
    assert vs[0].current && vs[1].current && vs[0].imageId == vs[1].imageId;
  }

  const Other: ImageRow := ImageRow("b", "dog.png", Png, "bob", 0)
  const OtherOld: VersionRow := VersionRow("b", "v1", 0, false, 1, 1, 1)
  const OtherNew: VersionRow := VersionRow("b", "w", 3, true, 1, 1, 1)
  const Shared: Tables := Tables([Owner, Other], [OlderFirst, Second, OtherOld, OtherNew], 4)

  lemma SharedStartHolds()
    ensures Schema(Shared) && OneCurrentPerImage(Shared.versions)
  {
    var vs := Shared.versions;
    assert HasImage(Shared.images, "a") by { assert Shared.images[0].id == "a"; }
    assert HasImage(Shared.images, "b") by { assert Shared.images[1].id == "b"; }
    assert IsCurrentOf(vs[1], "a") && IsCurrentOf(vs[3], "b");
    assert HasCurrent(vs, "a") && HasCurrent(vs, "b");
  }

  /** The promoting UPDATE matches on the token alone: when another image has
      a row with the same token, reverting one image gives the other a second
      current row. */
  lemma SharedTokenLeaksAcrossImages()
    ensures Schema(Shared) && OneCurrentPerImage(Shared.versions)
    ensures var s := MoveStep(Shared, "a", Back, NoFault);
            s.result == Ok(Some("v1")) && !AtMostOneCurrent(s.after.versions)
  {
    SharedStartHolds();
    var vs := Shared.versions;
    assert CurrentVersion(vs, "a") == Some(Second);
    assert Neighbour(vs, "a", Second, Back) == Some(OlderFirst) by {
      assert Neighbour(vs[3..], "a", Second, Back) == None;
      assert Neighbour(vs[2..], "a", Second, Back) == None;
      assert Neighbour(vs[1..], "a", Second, Back) == None;
    }
    var promoted := Promote(vs, "v1");
    assert promoted[2] == OtherOld.(current := true) && promoted[3] == OtherNew;
    var after := Demote(promoted, "a", "v1");
    MoveStepOfNeighbour(Shared, "a", Back, OlderFirst);
    assert after[2].current && after[3].current && after[2].imageId == after[3].imageId;
  }
}
