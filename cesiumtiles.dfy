/** The sorting stage of the 3D Tiles sink: sliced features are sorted by
    tile id, consecutive features with the same id are grouped, and each
    group is sent on with its id until the receiving stage is gone. */
module CesiumTiles {
  import opened Common

  /** `SerializedSlicedFeature`: a feature cut to one tile, its body already
      serialised. */
  datatype SlicedFeature = SlicedFeature(tileId: u64, body: seq<byte>)

  /** One group sent on: a tile id and the features cut to that tile. */
  type TileGroup = (u64, seq<SlicedFeature>)

  predicate SortedByTile(s: seq<SlicedFeature>) {
    forall i, j :: 0 <= i < j < |s| ==> s[i].tileId <= s[j].tileId
  }

  /** `x` placed after every feature whose id is not larger. */
  function InsertByTile(x: SlicedFeature, s: seq<SlicedFeature>): seq<SlicedFeature> {
    if s == [] then [x]
    else if s[|s| - 1].tileId <= x.tileId then s + [x]
    else InsertByTile(x, s[..|s| - 1]) + [s[|s| - 1]]
  }

  /** A feature whose id is not below any of a sorted sequence's may follow
      it. */
  lemma {:induction false} SortedSnoc(r: seq<SlicedFeature>, y: SlicedFeature)
    requires SortedByTile(r) && forall e :: e in r ==> e.tileId <= y.tileId
    ensures SortedByTile(r + [y])
  {
    var t := r + [y];
    forall i, j | 0 <= i < j < |t| ensures t[i].tileId <= t[j].tileId {
      if j == |r| {
        assert t[i] in r;
      } else {
        assert t[i] == r[i] && t[j] == r[j];
      }
    }
  }

  /** Inserting adds `x` once and keeps every other feature. */
  lemma {:induction false} InsertByTileMultiset(x: SlicedFeature, s: seq<SlicedFeature>)
    ensures multiset(InsertByTile(x, s)) == multiset(s) + multiset{x}
  {
    if s != [] && x.tileId < s[|s| - 1].tileId {
      var init := s[..|s| - 1];
      InsertByTileMultiset(x, init);
      assert s == init + [s[|s| - 1]];
    }
  }

  /** Inserting into a sorted sequence keeps it sorted. */
  lemma {:induction false} InsertByTileSorted(x: SlicedFeature, s: seq<SlicedFeature>)
    requires SortedByTile(s)
    ensures SortedByTile(InsertByTile(x, s))
  {
    if s != [] {
      var n := |s|;
      var init, last := s[..n - 1], s[n - 1];
      if last.tileId <= x.tileId {
        forall e | e in s ensures e.tileId <= x.tileId {
          var k :| 0 <= k < n && s[k] == e;
        }
        SortedSnoc(s, x);
      } else {
        assert SortedByTile(init);
        InsertByTileSorted(x, init);
        InsertByTileMultiset(x, init);
        var r0 := InsertByTile(x, init);
        forall e | e in r0 ensures e.tileId <= last.tileId {
          assert e in multiset(r0);
          if e != x {
            assert e in multiset(init);
            var k :| 0 <= k < |init| && init[k] == e;
            assert s[k] == e;
          }
        }
        SortedSnoc(r0, last);
      }
    }
  }

  /** The external sort by tile id. The model sorts by insertion, keeping
      features with equal ids in the order received. */
  function SortByTile(s: seq<SlicedFeature>): seq<SlicedFeature> {
    if s == [] then [] else InsertByTile(s[|s| - 1], SortByTile(s[..|s| - 1]))
  }

  /** The sort yields the features received, ordered by id. */
  lemma {:induction false} SortByTileSpec(s: seq<SlicedFeature>)
    ensures SortedByTile(SortByTile(s)) && multiset(SortByTile(s)) == multiset(s)
  {
    if s != [] {
      var n := |s|;
      SortByTileSpec(s[..n - 1]);
      InsertByTileSorted(s[n - 1], SortByTile(s[..n - 1]));
      InsertByTileMultiset(s[n - 1], SortByTile(s[..n - 1]));
      assert s == s[..n - 1] + [s[n - 1]];
    }
  }

  /** `group_by(|f| f.tile_id)`: runs of consecutive features with one id. */
  function GroupByTile(s: seq<SlicedFeature>): seq<TileGroup> {
    if s == [] then []
    else
      var n := |s|;
      var gs := GroupByTile(s[..n - 1]);
      var x := s[n - 1];
      if gs != [] && gs[|gs| - 1].0 == x.tileId then gs[..|gs| - 1] + [(x.tileId, gs[|gs| - 1].1 + [x])]
      else gs + [(x.tileId, [x])]
  }

  /** The features of the groups, in order. */
  function Members(gs: seq<TileGroup>): seq<SlicedFeature> {
    if gs == [] then [] else Members(gs[..|gs| - 1]) + gs[|gs| - 1].1
  }

  lemma {:induction false} MembersAppend(gs: seq<TileGroup>, g: TileGroup)
    ensures Members(gs + [g]) == Members(gs) + g.1
  {
    assert (gs + [g])[..|gs|] == gs;
  }

  /** Every group is non-empty and its features carry its id. */
  ghost predicate GroupsWellFormed(gs: seq<TileGroup>) {
    forall k :: 0 <= k < |gs| ==> gs[k].1 != [] && forall f :: f in gs[k].1 ==> f.tileId == gs[k].0
  }

  /** Group ids strictly increase. */
  ghost predicate StrictlyIncreasing(gs: seq<TileGroup>) {
    forall i, j :: 0 <= i < j < |gs| ==> gs[i].0 < gs[j].0
  }

  /** Grouping loses and reorders nothing: the groups' features, in order,
      are the input; the last group holds the last feature. */
  lemma {:induction false} GroupByTileMembers(s: seq<SlicedFeature>)
    ensures Members(GroupByTile(s)) == s
    ensures s != [] ==> GroupByTile(s) != [] && GroupByTile(s)[|GroupByTile(s)| - 1].0 == s[|s| - 1].tileId
    ensures s == [] ==> GroupByTile(s) == []
  {
    if s != [] {
      var n := |s|;
      var init, x := s[..n - 1], s[n - 1];
      GroupByTileMembers(init);
      var gs := GroupByTile(init);
      assert s == init + [x];
      if gs != [] && gs[|gs| - 1].0 == x.tileId {
        MembersExtendLast(gs, x);
      } else {
        MembersAppend(gs, (x.tileId, [x]));
      }
    }
  }

  /** Adding a feature to the last group adds it at the end of the members. */
  lemma {:induction false} MembersExtendLast(gs: seq<TileGroup>, x: SlicedFeature)
    requires gs != []
    ensures var m := |gs|;
      Members(gs[..m - 1] + [(x.tileId, gs[m - 1].1 + [x])]) == Members(gs) + [x]
  {
    var m := |gs|;
    var front, last := gs[..m - 1], gs[m - 1];
    var grown := (x.tileId, last.1 + [x]);
    calc {
      Members(front + [grown]);
      { MembersAppend(front, grown); }
      Members(front) + (last.1 + [x]);
      (Members(front) + last.1) + [x];
      { MembersAppend(front, last); }
      Members(front + [last]) + [x];
      { assert gs == front + [last]; }
      Members(gs) + [x];
    }
  }

  /** Every group is non-empty and all its features carry its id. */
  lemma {:induction false} GroupByTileWellFormed(s: seq<SlicedFeature>)
    ensures GroupsWellFormed(GroupByTile(s))
  {
    if s != [] {
      var n := |s|;
      var init, x := s[..n - 1], s[n - 1];
      GroupByTileWellFormed(init);
      var gs := GroupByTile(init);
      if gs != [] && gs[|gs| - 1].0 == x.tileId {
        WellFormedReplaceLast(gs, x);
      } else {
        WellFormedSnoc(gs, x);
      }
    }
  }

  lemma {:induction false} WellFormedSnoc(gs: seq<TileGroup>, x: SlicedFeature)
    requires GroupsWellFormed(gs)
    ensures GroupsWellFormed(gs + [(x.tileId, [x])])
  {
    var t := gs + [(x.tileId, [x])];
    forall k | 0 <= k < |t| ensures t[k].1 != [] && forall f :: f in t[k].1 ==> f.tileId == t[k].0 {
      if k < |gs| {
        assert t[k] == gs[k];
      }
    }
  }

  lemma {:induction false} WellFormedReplaceLast(gs: seq<TileGroup>, x: SlicedFeature)
    requires GroupsWellFormed(gs) && gs != [] && gs[|gs| - 1].0 == x.tileId
    ensures GroupsWellFormed(gs[..|gs| - 1] + [(x.tileId, gs[|gs| - 1].1 + [x])])
  {
    var m := |gs|;
    var t := gs[..m - 1] + [(x.tileId, gs[m - 1].1 + [x])];
    forall k | 0 <= k < |t| ensures t[k].1 != [] && forall f :: f in t[k].1 ==> f.tileId == t[k].0 {
      if k < m - 1 {
        assert t[k] == gs[k];
      } else {
        forall f | f in t[k].1 ensures f.tileId == t[k].0 {
          if f != x {
            assert f in gs[m - 1].1;
          }
        }
      }
    }
  }

  /** Over features sorted by id, the group ids strictly increase, so each id
      has exactly one group. */
  lemma {:induction false} GroupByTileIncreasing(s: seq<SlicedFeature>)
    requires SortedByTile(s)
    ensures StrictlyIncreasing(GroupByTile(s))
  {
    if s != [] {
      var n := |s|;
      var init, x := s[..n - 1], s[n - 1];
      assert SortedByTile(init);
      GroupByTileIncreasing(init);
      GroupByTileMembers(init);
      var gs := GroupByTile(init);
      if gs != [] {
        var m := |gs|;
        assert gs[m - 1].0 == init[n - 2].tileId <= x.tileId;
        if gs[m - 1].0 == x.tileId {
          IncreasingReplaceLast(gs, (x.tileId, gs[m - 1].1 + [x]));
        } else {
          IncreasingSnoc(gs, (x.tileId, [x]));
        }
      }
    }
  }

  lemma {:induction false} IncreasingSnoc(gs: seq<TileGroup>, g: TileGroup)
    requires StrictlyIncreasing(gs) && (gs != [] ==> gs[|gs| - 1].0 < g.0)
    ensures StrictlyIncreasing(gs + [g])
  {
    var t := gs + [g];
    forall i, j | 0 <= i < j < |t| ensures t[i].0 < t[j].0 {
      if j == |gs| && i < |gs| - 1 {
        assert gs[i].0 < gs[|gs| - 1].0;
      }
    }
  }

  lemma {:induction false} IncreasingReplaceLast(gs: seq<TileGroup>, g: TileGroup)
    requires StrictlyIncreasing(gs) && gs != [] && gs[|gs| - 1].0 == g.0
    ensures StrictlyIncreasing(gs[..|gs| - 1] + [g])
  {
    var t := gs[..|gs| - 1] + [g];
    assert forall k :: 0 <= k < |t| ==> t[k].0 == gs[k].0;
  }

  /** A group's position is determined by its id: two groups with the same id
      are the same group. */
  lemma {:induction false} GroupIdsDistinct(received: seq<SlicedFeature>)
    ensures var gs := GroupByTile(SortByTile(received));
      forall i, j :: 0 <= i < |gs| && 0 <= j < |gs| && gs[i].0 == gs[j].0 ==> i == j
  {
    SortByTileSpec(received);
    GroupByTileIncreasing(SortByTile(received));
  }

  /** What the stage promises about the groups it forms from the features
      received: ids strictly increase, every group is non-empty and
      homogeneous, and together the groups hold exactly the features
      received. */
  lemma {:induction false} SortingStageSpec(received: seq<SlicedFeature>)
    ensures var gs := GroupByTile(SortByTile(received));
      StrictlyIncreasing(gs) && GroupsWellFormed(gs) &&
      multiset(Members(gs)) == multiset(received)
  {
    SortByTileSpec(received);
    GroupByTileIncreasing(SortByTile(received));
    GroupByTileMembers(SortByTile(received));
    GroupByTileWellFormed(SortByTile(received));
  }

  /** The groups sent when the receiving stage accepts the first `accepted`
      sends: the loop returns at the first failed send. */
  function SentGroups(gs: seq<TileGroup>, accepted: nat): (r: seq<TileGroup>)
    ensures |r| == if accepted < |gs| then accepted else |gs|
    ensures r == gs[..|r|]
  {
    if accepted < |gs| then gs[..accepted] else gs
  }

  /** `feature_sorting_stage`: sort, group, and send each group while the
      receiver accepts; `accepted` is how many sends succeed before the
      receiving stage is gone. Attempted sends count the failed one too. */
  method FeatureSortingStage(received: seq<SlicedFeature>, accepted: nat)
    returns (sent: seq<TileGroup>, attempts: nat)
    ensures sent == SentGroups(GroupByTile(SortByTile(received)), accepted)
    ensures attempts == |sent| + (if accepted < |GroupByTile(SortByTile(received))| then 1 else 0)
  {
    var groups := GroupByTile(SortByTile(received));
    sent := [];
    var i := 0;
    while i < |groups|
      invariant 0 <= i <= |groups| && i <= accepted
      invariant sent == groups[..i]
    {
      if i == accepted {
        return sent, i + 1;
      }
      sent := sent + [groups[i]];
      i := i + 1;
    }
    assert groups[..i] == groups;
    return sent, i;
  }

  /** Features with ids 5, 3, 5 become the groups 3 and 5, the latter holding
      both features with id 5 in the order they came. */
  lemma {:induction false} GroupingExample(a: seq<byte>, b: seq<byte>, c: seq<byte>)
    ensures GroupByTile(SortByTile([SlicedFeature(5, a), SlicedFeature(3, b), SlicedFeature(5, c)])) ==
      [(3, [SlicedFeature(3, b)]), (5, [SlicedFeature(5, a), SlicedFeature(5, c)])]
  {
    var x, y, z := SlicedFeature(5, a), SlicedFeature(3, b), SlicedFeature(5, c);
    var s := [x, y, z];
    assert s[..2] == [x, y] && [x, y][..1] == [x] && [x][..0] == [];
    assert SortByTile([x]) == [x];
    assert InsertByTile(y, [x]) == InsertByTile(y, []) + [x];
    assert SortByTile([x, y]) == [y, x];
    assert SortByTile(s) == [y, x, z];
    var t := [y, x, z];
    assert t[..2] == [y, x] && [y, x][..1] == [y] && [y][..0] == [];
    assert GroupByTile([y]) == [(3, [y])];
    var g2 := [(3 as u64, [y]), (5 as u64, [x])];
    assert GroupByTile([y, x]) == g2;
    assert g2[..1] == [(3, [y])];
    assert t[..3 - 1] == [y, x];
    assert GroupByTile(t) == g2[..1] + [(5, g2[1].1 + [z])];
    assert g2[1].1 + [z] == [x, z];
  }
}
